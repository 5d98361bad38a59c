/** How nested functions capture variables: the index that the compiler gives a
    captured name, followed through the capture lists as closures are created,
    ends at the variable that lexical scoping selects. */
module Captures {
  import opened Options
  import opened Machine

  datatype Local = Local(name: string, slot: byte)

  /** A capture: a local of the enclosing function, or one of its captures. */
  datatype Upvalue = Upvalue(index: byte, isLocal: bool)

  datatype Scope = Scope(locals: seq<Local>, upvalues: seq<Upvalue>)

  /** A variable: how many functions out, and its slot there. */
  datatype Variable = Variable(out: nat, slot: byte)

  // ----------------------------------------------------------- specification

  /** The slot of the last local with that name. */
  function FindLocal(locals: seq<Local>, name: string): (r: Option<byte>)
    ensures r.None? <==> forall k :: 0 <= k < |locals| ==> locals[k].name != name
  {
    if locals == [] then None
    else if locals[|locals| - 1].name == name then Some(locals[|locals| - 1].slot)
    else FindLocal(locals[..|locals| - 1], name)
  }

  /** The variable that a name means in the innermost function, scopes[0], when
      it is not a local: the nearest enclosing one. */
  function Lexical(scopes: seq<Scope>, name: string): Option<Variable> {
    if |scopes| < 2 then None
    else
      match FindLocal(scopes[1].locals, name)
      case Some(slot) => Some(Variable(1, slot))
      case None =>
        match Lexical(scopes[1..], name)
        case None => None
        case Some(v) => Some(Variable(v.out + 1, v.slot))
  }

  /** The k-th local has that name and slot, and no later one has the name. */
  predicate LastNamed(locals: seq<Local>, name: string, slot: byte, k: nat) {
    k < |locals| && locals[k] == Local(name, slot) && forall j :: k < j < |locals| ==> locals[j].name != name
  }

  /** The variable that a name means by the rules of scoping: of the nearest
      enclosing function that has a local of that name, the last such local. */
  ghost predicate Selected(scopes: seq<Scope>, name: string, v: Variable) {
    1 <= v.out < |scopes| && (exists k: nat :: LastNamed(scopes[v.out].locals, name, v.slot, k)) &&
    forall m :: 1 <= m < v.out ==> NoLocal(scopes[m], name)
  }

  predicate NoLocal(scope: Scope, name: string) {
    forall k :: 0 <= k < |scope.locals| ==> scope.locals[k].name != name
  }

  lemma {:induction false} FindsLast(locals: seq<Local>, name: string)
    ensures FindLocal(locals, name).Some? ==> exists k: nat :: LastNamed(locals, name, FindLocal(locals, name).value, k)
  {
    if locals != [] {
      var n := |locals| - 1;
      if locals[n].name == name {
        assert LastNamed(locals, name, locals[n].slot, n);
      } else if FindLocal(locals[..n], name).Some? {
        FindsLast(locals[..n], name);
        var k: nat :| LastNamed(locals[..n], name, FindLocal(locals, name).value, k);
        assert forall j :: 0 <= j < n ==> locals[j] == locals[..n][j];
        assert LastNamed(locals, name, FindLocal(locals, name).value, k);
      }
    }
  }

  /** Lexical finds the selected variable, if there is one. */
  lemma {:induction false} LexicalSelects(scopes: seq<Scope>, name: string)
    ensures match Lexical(scopes, name)
            case Some(v) => Selected(scopes, name, v)
            case None => forall m :: 1 <= m < |scopes| ==> NoLocal(scopes[m], name)
  {
    hide LastNamed;
    if |scopes| >= 2 {
      FindsLast(scopes[1].locals, name);
      if FindLocal(scopes[1].locals, name).None? {
        LexicalSelects(scopes[1..], name);
        assert NoLocal(scopes[1], name);
        forall m | 2 <= m < |scopes| ensures scopes[m] == scopes[1..][m - 1] {}
      }
    }
  }

  lemma HasLocal(scopes: seq<Scope>, name: string, v: Variable)
    requires Selected(scopes, name, v)
    ensures !NoLocal(scopes[v.out], name)
  {
  }

  lemma SelectedOnce(scopes: seq<Scope>, name: string, v: Variable, w: Variable)
    requires Selected(scopes, name, v) && Selected(scopes, name, w)
    ensures v == w
  {
    HasLocal(scopes, name, v);
    HasLocal(scopes, name, w);
    assert v.out == w.out by { hide LastNamed, NoLocal; }
  }

  lemma SelectedExactly(scopes: seq<Scope>, name: string, v: Variable)
    ensures Lexical(scopes, name) == Some(v) <==> Selected(scopes, name, v)
  {
    LexicalSelects(scopes, name);
    if Selected(scopes, name, v) {
      HasLocal(scopes, name, v);
      hide Selected, NoLocal;
      if Lexical(scopes, name).Some? { SelectedOnce(scopes, name, v, Lexical(scopes, name).value); }
    }
  }

  /** The variable whose cell capture `i` of the innermost function holds. */
  function Follow(scopes: seq<Scope>, i: nat): Option<Variable> {
    if |scopes| < 2 || i >= |scopes[0].upvalues| then None
    else
      var u := scopes[0].upvalues[i];
      if u.isLocal then Some(Variable(1, u.index))
      else
        match Follow(scopes[1..], u.index)
        case None => None
        case Some(v) => Some(Variable(v.out + 1, v.slot))
  }

  function Position(ups: seq<Upvalue>, u: Upvalue): (k: nat)
    ensures k <= |ups|
    ensures k < |ups| ==> ups[k] == u
    ensures k == |ups| ==> u !in ups
  {
    if ups == [] then 0 else if ups[0] == u then 0 else 1 + Position(ups[1..], u)
  }

  function Added(ups: seq<Upvalue>, u: Upvalue): (r: seq<Upvalue>)
    ensures Position(ups, u) < |r| && r[Position(ups, u)] == u && ups <= r
    ensures NoRepeats(ups) ==> NoRepeats(r)
  {
    if u in ups then ups else ups + [u]
  }

  predicate NoRepeats(ups: seq<Upvalue>) { forall i, j :: 0 <= i < j < |ups| ==> ups[i] != ups[j] }

  datatype Resolved = Resolved(scopes: seq<Scope>, index: Option<byte>)

  /** The scopes after resolving a name, and its index, which wraps. */
  function Resolve(scopes: seq<Scope>, name: string): (r: Resolved)
    ensures |r.scopes| == |scopes|
  {
    if |scopes| < 2 then Resolved(scopes, None)
    else
      match FindLocal(scopes[1].locals, name)
      case Some(slot) => Capture(scopes[0], scopes[1..], Upvalue(slot, true))
      case None =>
        var outer := Resolve(scopes[1..], name);
        match outer.index
        case Some(index) => Capture(scopes[0], outer.scopes, Upvalue(index, false))
        case None => Resolved([scopes[0]] + outer.scopes, None)
  }

  function Capture(scope: Scope, outer: seq<Scope>, u: Upvalue): Resolved {
    Resolved([Scope(scope.locals, Added(scope.upvalues, u))] + outer, Some(Position(scope.upvalues, u) % 256))
  }

  // -------------------------------------------------------------- properties

  /** No function has more than 256 captures. */
  predicate Small(scopes: seq<Scope>) { forall k :: 0 <= k < |scopes| ==> |scopes[k].upvalues| <= 256 }

  predicate AllDistinct(scopes: seq<Scope>) { forall k :: 0 <= k < |scopes| ==> NoRepeats(scopes[k].upvalues) }

  /** The locals are the same, the capture lists longer at most. */
  predicate Longer(after: seq<Scope>, before: seq<Scope>) {
    |after| == |before| &&
    forall k :: 0 <= k < |after| ==> after[k].locals == before[k].locals && before[k].upvalues <= after[k].upvalues
  }

  lemma {:induction false} ResolveGrows(scopes: seq<Scope>, name: string)
    ensures Longer(Resolve(scopes, name).scopes, scopes)
    ensures AllDistinct(scopes) ==> AllDistinct(Resolve(scopes, name).scopes)
  {
    hide FindLocal, Position, NoRepeats;
    if |scopes| >= 2 {
      ResolveGrows(scopes[1..], name);
      assert forall k :: 1 <= k < |scopes| ==> scopes[k] == scopes[1..][k - 1];
    }
  }

  /** A name resolves exactly when there is a variable outside, and its index
      leads to it. */
  lemma {:induction false} FollowsFound(scopes: seq<Scope>, name: string)
    requires Small(Resolve(scopes, name).scopes)
    ensures var r := Resolve(scopes, name);
            (r.index.Some? <==> Lexical(scopes, name).Some?) &&
            (r.index.Some? ==> Follow(r.scopes, r.index.value) == Lexical(scopes, name))
  {
    if |scopes| >= 2 {
      var found := FindLocal(scopes[1].locals, name);
      if found.Some? {
        CaptureFollowed(scopes[0], scopes[1..], Upvalue(found.value, true));
      } else {
        var outer := Resolve(scopes[1..], name);
        hide Follow;
        var r := Resolve(scopes, name).scopes;
        assert forall k :: 0 <= k < |outer.scopes| ==> outer.scopes[k] == r[k + 1];
        if outer.index.Some? {
          CaptureFollowed(scopes[0], outer.scopes, Upvalue(outer.index.value, false));
        }
        FollowsFound(scopes[1..], name);
      }
    }
  }

  /** A name resolves exactly when an enclosing function has a local of that
      name, and its index leads to the one that scoping selects. */
  lemma FollowsToLexical(scopes: seq<Scope>, name: string)
    requires Small(Resolve(scopes, name).scopes)
    ensures var r := Resolve(scopes, name);
            (r.index.Some? <==>
               exists m, k :: 1 <= m < |scopes| && 0 <= k < |scopes[m].locals| && scopes[m].locals[k].name == name) &&
            (r.index.Some? ==>
               forall v :: Follow(r.scopes, r.index.value) == Some(v) <==> Selected(scopes, name, v))
  {
    hide Resolve, Lexical, Follow;
    FollowsFound(scopes, name);
    LexicalSelects(scopes, name);
    forall v ensures Lexical(scopes, name) == Some(v) <==> Selected(scopes, name, v) {
      SelectedExactly(scopes, name, v);
    }
  }

  /** The index of a capture leads where the capture does. */
  lemma CaptureFollowed(scope: Scope, outer: seq<Scope>, u: Upvalue)
    requires outer != [] && Small(Capture(scope, outer, u).scopes)
    ensures Small(outer)
    ensures var r := Capture(scope, outer, u);
            Follow(r.scopes, r.index.value) ==
            if u.isLocal then Some(Variable(1, u.index))
            else match Follow(outer, u.index)
                 case None => None
                 case Some(v) => Some(Variable(v.out + 1, v.slot))
  {
    var r := Capture(scope, outer, u);
    assert r.scopes[1..] == outer;
    assert |r.scopes[0].upvalues| <= 256;
    forall k | 0 <= k < |outer| ensures |outer[k].upvalues| <= 256 { assert outer[k] == r.scopes[k + 1]; }
  }

  /** Longer lists lead to the same variables. */
  lemma {:induction false} FollowKept(before: seq<Scope>, after: seq<Scope>, i: nat)
    requires Longer(after, before) && Follow(before, i).Some?
    ensures Follow(after, i) == Follow(before, i)
  {
    var u := before[0].upvalues[i];
    assert after[0].upvalues[i] == u;
    if !u.isLocal {
      assert forall k :: 0 <= k < |before| - 1 ==> before[1..][k] == before[k + 1] && after[1..][k] == after[k + 1];
      FollowKept(before[1..], after[1..], u.index);
    }
  }

  /** Later captures never change what an earlier index means. */
  lemma LaterCapturesKeep(scopes: seq<Scope>, name: string, i: nat)
    requires Follow(scopes, i).Some?
    ensures Follow(Resolve(scopes, name).scopes, i) == Follow(scopes, i)
  {
    ResolveGrows(scopes, name);
    FollowKept(scopes, Resolve(scopes, name).scopes, i);
  }

  /** Different captures hold different variables. */
  lemma {:induction false} FollowInjective(scopes: seq<Scope>, i: nat, j: nat)
    requires AllDistinct(scopes) && Follow(scopes, i).Some? && Follow(scopes, i) == Follow(scopes, j)
    ensures i == j
  {
    var u, v := scopes[0].upvalues[i], scopes[0].upvalues[j];
    assert NoRepeats(scopes[0].upvalues);
    if !u.isLocal && !v.isLocal {
      assert forall k :: 0 <= k < |scopes| - 1 ==> scopes[1..][k] == scopes[k + 1];
      FollowInjective(scopes[1..], u.index, v.index);
    } else {
      FollowOut(scopes[1..], u.index);
      FollowOut(scopes[1..], v.index);
    }
  }

  lemma FollowOut(scopes: seq<Scope>, i: nat)
    ensures Follow(scopes, i).Some? ==> Follow(scopes, i).value.out >= 1
  {
  }

  /** Two names get one index exactly when scoping selects one variable for
      both. */
  lemma SameIndexSameVariable(scopes: seq<Scope>, a: string, b: string)
    requires AllDistinct(scopes)
    requires var r := Resolve(scopes, a);
             var q := Resolve(r.scopes, b);
             r.index.Some? && q.index.Some? && Small(q.scopes)
    ensures var r := Resolve(scopes, a);
            Resolve(r.scopes, b).index == r.index <==> exists v :: Selected(scopes, a, v) && Selected(scopes, b, v)
  {
    SameIndexFound(scopes, a, b);
    hide Resolve, Selected, Lexical, Follow;
    forall v ensures Lexical(scopes, a) == Some(v) <==> Selected(scopes, a, v) { SelectedExactly(scopes, a, v); }
    forall v ensures Lexical(scopes, b) == Some(v) <==> Selected(scopes, b, v) { SelectedExactly(scopes, b, v); }
  }

  lemma SameIndexFound(scopes: seq<Scope>, a: string, b: string)
    requires AllDistinct(scopes)
    requires var r := Resolve(scopes, a);
             var q := Resolve(r.scopes, b);
             r.index.Some? && q.index.Some? && Small(q.scopes)
    ensures Lexical(scopes, a).Some?
    ensures var r := Resolve(scopes, a);
            Resolve(r.scopes, b).index == r.index <==> Lexical(scopes, a) == Lexical(scopes, b)
  {
    var r := Resolve(scopes, a);
    var q := Resolve(r.scopes, b);
    ResolveGrows(scopes, a);
    ResolveGrows(r.scopes, b);
    assert Small(r.scopes) by {
      forall k | 0 <= k < |r.scopes| ensures |r.scopes[k].upvalues| <= 256 {
        assert r.scopes[k].upvalues <= q.scopes[k].upvalues;
      }
    }
    FollowsFound(scopes, a);
    FollowsFound(r.scopes, b);
    LexicalKept(scopes, r.scopes, b);
    FollowKept(r.scopes, q.scopes, r.index.value);
    if Lexical(scopes, a) == Lexical(scopes, b) {
      FollowInjective(q.scopes, r.index.value, q.index.value);
    }
  }

  lemma {:induction false} LexicalKept(before: seq<Scope>, after: seq<Scope>, name: string)
    requires Longer(after, before)
    ensures Lexical(after, name) == Lexical(before, name)
  {
    if |before| >= 2 {
      assert forall k :: 0 <= k < |before| - 1 ==> before[1..][k] == before[k + 1] && after[1..][k] == after[k + 1];
      LexicalKept(before[1..], after[1..], name);
    }
  }

  // ---------------------------------------------------------------- compiler

  /** The state of the compiler for one function. */
  class State {
    const parent: State?
    ghost const depth: nat
    var locals: seq<Local>
    var upvalues: seq<Upvalue>

    constructor (parent: State?)
      ensures this.parent == parent && locals == [] && upvalues == []
      ensures parent != null ==> depth == parent.depth + 1
    {
      this.parent := parent;
      this.depth := if parent == null then 0 else parent.depth + 1;
      locals, upvalues := [], [];
    }
  }

  ghost predicate Linked(s: State)
    decreases s.depth
  {
    s.parent != null ==> s.parent.depth < s.depth && Linked(s.parent)
  }

  /** A function and those around it. */
  ghost function Up(s: State): (r: set<State>)
    requires Linked(s)
    ensures s in r && forall t :: t in r ==> t.depth <= s.depth
    decreases s.depth
  {
    {s} + if s.parent == null then {} else Up(s.parent)
  }

  ghost function View(s: State): (r: seq<Scope>)
    requires Linked(s)
    reads Up(s)
    ensures |r| > 0 && r[0] == Scope(s.locals, s.upvalues)
    decreases s.depth
  {
    [Scope(s.locals, s.upvalues)] + if s.parent == null then [] else View(s.parent)
  }

  method FindLocalIn(s: State, name: string) returns (slot: Option<byte>)
    ensures slot == FindLocal(s.locals, name)
  {
    var i := |s.locals|;
    assert s.locals[..i] == s.locals;
    while i > 0
      invariant 0 <= i <= |s.locals|
      invariant FindLocal(s.locals, name) == FindLocal(s.locals[..i], name)
    {
      i := i - 1;
      assert s.locals[..i + 1][..i] == s.locals[..i];
      if s.locals[i].name == name { return Some(s.locals[i].slot); }
    }
    return None;
  }

  method AddUpvalue(s: State, u: Upvalue) returns (index: byte)
    modifies s
    ensures s.locals == old(s.locals) && s.upvalues == Added(old(s.upvalues), u)
    ensures index == Position(old(s.upvalues), u) % 256
  {
    var i := 0;
    while i < |s.upvalues|
      invariant 0 <= i <= |s.upvalues|
      invariant Position(s.upvalues, u) == i + Position(s.upvalues[i..], u)
      invariant s.upvalues == old(s.upvalues) && u !in s.upvalues[..i]
    {
      assert s.upvalues[i..][1..] == s.upvalues[i + 1..];
      if s.upvalues[i] == u { return i % 256; }
      assert s.upvalues[..i + 1] == s.upvalues[..i] + [s.upvalues[i]];
      i := i + 1;
    }
    assert s.upvalues[..i] == s.upvalues;
    s.upvalues := s.upvalues + [u];
    return (|s.upvalues| - 1) % 256;
  }

  lemma UpAllocated(s: State)
    requires Linked(s)
    ensures forall t :: t in Up(s) ==> allocated(t)
    decreases s.depth
  {
    if s.parent != null { UpAllocated(s.parent); }
  }

  /** Adding a capture to the innermost function leaves the others. */
  method AddCapture(s: State, u: Upvalue) returns (index: byte)
    requires Linked(s) && s.parent != null
    modifies s
    ensures View(s) == [Scope(old(s.locals), Added(old(s.upvalues), u))] + old(View(s.parent))
    ensures index == Position(old(s.upvalues), u) % 256
  {
    hide View, Added, Position;
    ParentView(s);
    UpAllocated(s.parent);
    ghost var outer := View(s.parent);
    index := AddUpvalue(s, u);
    assert View(s.parent) == outer;
    ParentView(s);
  }

  /** Resolving a name through the enclosing functions. */
  method ResolveUpvalueFrom(current: State, name: string) returns (index: Option<byte>)
    requires Linked(current)
    modifies Up(current)
    ensures Resolved(View(current), index) == Resolve(old(View(current)), name)
    decreases current.depth
  {
    hide Resolve, View, Added, Position;
    if current.parent == null {
      NoParent(current, name);
      return None;
    }
    UpAllocated(current.parent);
    ParentView(current);
    ghost var scopes := View(current);
    var slot := FindLocalIn(current.parent, name);
    if slot.Some? {
      var i := AddCapture(current, Upvalue(slot.value, true));
      ResolvedHere(scopes, name);
      return Some(i);
    }
    var outer := ResolveUpvalueFrom(current.parent, name);
    ParentView(current);
    ResolvedOutside(scopes, name);
    if outer.Some? {
      var i := AddCapture(current, Upvalue(outer.value, false));
      return Some(i);
    }
    return None;
  }

  lemma ParentView(s: State)
    requires Linked(s) && s.parent != null
    ensures View(s) == [Scope(s.locals, s.upvalues)] + View(s.parent) && View(s)[1..] == View(s.parent)
    ensures View(s)[1].locals == s.parent.locals && s !in Up(s.parent) && Linked(s.parent)
  {
  }

  lemma NoParent(s: State, name: string)
    requires Linked(s) && s.parent == null
    ensures Resolve(View(s), name) == Resolved(View(s), None)
  {
  }

  lemma ResolvedHere(scopes: seq<Scope>, name: string)
    requires |scopes| >= 2 && FindLocal(scopes[1].locals, name).Some?
    ensures var u := Upvalue(FindLocal(scopes[1].locals, name).value, true);
            Resolve(scopes, name) ==
            Resolved([Scope(scopes[0].locals, Added(scopes[0].upvalues, u))] + scopes[1..],
                     Some(Position(scopes[0].upvalues, u) % 256))
  {
  }

  lemma ResolvedOutside(scopes: seq<Scope>, name: string)
    requires |scopes| >= 2 && FindLocal(scopes[1].locals, name).None?
    ensures var outer := Resolve(scopes[1..], name);
            (outer.index.None? ==> Resolve(scopes, name) == Resolved([scopes[0]] + outer.scopes, None)) &&
            (outer.index.Some? ==>
               var u := Upvalue(outer.index.value, false);
               Resolve(scopes, name) ==
               Resolved([Scope(scopes[0].locals, Added(scopes[0].upvalues, u))] + outer.scopes,
                        Some(Position(scopes[0].upvalues, u) % 256)))
  {
  }
}
