/** A future on the heap: the value that is handed over is copied on the way in
    and again on the way out. */
module FutureHandles {
  import opened Options
  import opened DeepCopies

  class Future {
    var completed: bool
    var cancelled: bool
    var result: Val
    var error: Option<string>

    constructor ()
      ensures !completed && !cancelled && result == Atom(SNil) && error == None
    {
      completed, cancelled, result, error := false, false, Atom(SNil), None;
    }

    /** Only the first call changes anything. `heap` is a closed set of objects
        with the value; the future keeps a copy of it. */
    method Resolve(result: Val, error: Option<string>, cancelled: bool, ghost heap: set<Node>)
      returns (ok: bool, ghost g: Graph, ghost h: Graph, ghost copies: map<Node, Node>)
      requires Closed(Snapshot(heap)) && (result.Ref? ==> result.o in heap)
      modifies this
      ensures ok == !old(completed) && completed
      ensures !ok ==> this.result == old(this.result) && this.error == old(this.error) && this.cancelled == old(this.cancelled)
      ensures ok ==> this.error == error && this.cancelled == cancelled
      ensures ok ==> g == old(Snapshot(heap)) && Unchanged(g) && Unchanged(h)
      ensures ok ==> IsCopy(result, g, this.result, h, copies) && forall n :: n in copies ==> fresh(copies[n])
    {
      hide IsCopy, Closed;
      g, h, copies := map[], map[], map[];
      if completed { return false, g, h, copies; }
      var copy: Val;
      copy, g, h, copies := DeepCopy(result, heap);
      this.result, this.error, this.cancelled, completed := copy, error, cancelled, true;
      ok := true;
    }

    method Complete(v: Val, ghost heap: set<Node>)
      returns (ok: bool, ghost g: Graph, ghost h: Graph, ghost copies: map<Node, Node>)
      requires Closed(Snapshot(heap)) && (v.Ref? ==> v.o in heap)
      modifies this
      ensures ok == !old(completed) && completed
      ensures !ok ==> this.result == old(this.result) && this.error == old(this.error) && this.cancelled == old(this.cancelled)
      ensures ok ==> this.error == None && !this.cancelled
      ensures ok ==> g == old(Snapshot(heap)) && Unchanged(g) && Unchanged(h)
      ensures ok ==> IsCopy(v, g, this.result, h, copies) && forall n :: n in copies ==> fresh(copies[n])
    {
      ok, g, h, copies := Resolve(v, None, false, heap);
    }

    method Fail(error: string) returns (ok: bool)
      modifies this
      ensures ok == !old(completed) && completed
      ensures !ok ==> this.result == old(this.result) && this.error == old(this.error) && this.cancelled == old(this.cancelled)
      ensures ok ==> this.error == Some(error) && !this.cancelled && result == Atom(SNil)
    {
      ghost var g, h, copies;
      NoHeap();
      ok, g, h, copies := Resolve(Atom(SNil), Some(error), false, {});
    }

    method Cancel() returns (ok: bool)
      modifies this
      ensures ok == !old(completed) && completed
      ensures !ok ==> this.result == old(this.result) && this.error == old(this.error) && this.cancelled == old(this.cancelled)
      ensures ok ==> this.error == Some("future cancelled") && this.cancelled && result == Atom(SNil)
    {
      ghost var g, h, copies;
      NoHeap();
      ok, g, h, copies := Resolve(Atom(SNil), Some("future cancelled"), true, {});
    }

    /** What an await does once the future is done: it changes nothing and
        reports the error, or a copy of the result. */
    method Await(ghost heap: set<Node>)
      returns (r: Val, error: Option<string>, ghost g: Graph, ghost h: Graph, ghost copies: map<Node, Node>)
      requires completed && Closed(Snapshot(heap)) && (result.Ref? ==> result.o in heap)
      ensures error == this.error && (error.Some? ==> r == Atom(SNil))
      ensures error == None ==> g == old(Snapshot(heap)) && Unchanged(g) && Unchanged(h)
      ensures error == None ==> IsCopy(result, g, r, h, copies) && forall n :: n in copies ==> fresh(copies[n])
    {
      hide IsCopy, Closed;
      g, h, copies := map[], map[], map[];
      error := this.error;
      if error.Some? { return Atom(SNil), error, g, h, copies; }
      r, g, h, copies := DeepCopy(result, heap);
    }
  }

  lemma NoHeap()
    ensures Closed(Snapshot({}))
  {
  }

  // ---------------------------------------------------------------- hand-off

  /** Later, the copies are as they were, whatever happened to the originals;
      what is never copied is still there. */
  ghost predicate Kept(g: Graph, h: Graph, later: Graph) {
    (forall n :: n in h ==> n in later && later[n] == h[n]) &&
    (forall n :: n in g && g[n].shape.Shared? ==> n in later && later[n].shape.Shared?)
  }

  /** A value of the copy stays inside it or is never copied. */
  predicate Inside(r: Val, g: Graph, h: Graph) { r.Ref? && r.o !in h ==> r.o in g && g[r.o].shape.Shared? }

  lemma ImageInside(v: Val, r: Val, g: Graph, h: Graph, copies: map<Node, Node>)
    requires Image(v, r, copies, g) && Within(v, g) && forall n :: n in copies ==> copies[n] in h
    ensures Inside(r, g, h)
  {
  }

  /** Paths through the copy are the same in the later heap. */
  lemma {:induction false} PathsLater(
    v: Val, g: Graph, r: Val, h: Graph, copies: map<Node, Node>, later: Graph, p: seq<Step>)
    requires IsCopy(v, g, r, h, copies) && Closed(g) && Within(v, g) && Kept(g, h, later)
    ensures Follow(r, p, later) == Follow(r, p, h)
    decreases |p|
  {
    hide Closed, CopyOf, Table, Kept;
    if |p| > 0 {
      CopiedSame(v, r, g, h, copies);
      CopiedLater(v, r, g, h, copies, later);
      if Copied(v, g) {
        StepSame(g[v.o], h[r.o], p[0], copies, g);
        var next := Value(g[v.o], p[0]);
        if next != [] {
          ShapeOf(v.o, g);
          ValueWithin(g[v.o], p[0], g);
          PathsLater(next[0], g, Value(h[r.o], p[0])[0], h, copies, later, p[1..]);
        }
      }
    }
  }

  lemma CopiedLater(v: Val, r: Val, g: Graph, h: Graph, copies: map<Node, Node>, later: Graph)
    requires IsCopy(v, g, r, h, copies) && Within(v, g) && Kept(g, h, later)
    ensures Copied(r, later) == Copied(v, g)
    ensures Copied(v, g) ==> later[r.o] == h[r.o]
  {
    hide Injective;
    if Copied(v, g) { assert CopyOf(g[v.o], h[copies[v.o]], copies, g); }
  }

  /** The same scalar or uncopied object, or a copy with the same shape: kind,
      class, length of its own data. */
  predicate SameEnd(a: Val, g: Graph, c: Val, k: Graph) {
    if Copied(a, g) then c.Ref? && c.o in k && k[c.o].shape == g[a.o].shape else c == a
  }

  lemma ImageShape(v: Val, g: Graph, r: Val, h: Graph, copies: map<Node, Node>, a: Val, b: Val)
    requires IsCopy(v, g, r, h, copies) && Image(a, b, copies, g)
    ensures SameEnd(a, g, b, h) && (Copied(a, g) ==> b == Ref(copies[a.o]) && !h[b.o].shape.Shared?)
  {
    hide Injective;
    if Copied(a, g) { assert CopyOf(g[a.o], h[copies[a.o]], copies, g); }
  }

  lemma EndSame(
    v: Val, g: Graph, m: Val, h: Graph, first: map<Node, Node>, later: Graph, r: Val, k: Graph, second: map<Node, Node>,
    p: seq<Step>)
    requires IsCopy(v, g, m, h, first) && Closed(g) && Within(v, g) && Kept(g, h, later)
    requires IsCopy(m, later, r, k, second) && Closed(later) && Within(m, later)
    requires |Follow(v, p, g)| == 1
    ensures |Follow(r, p, k)| == 1 && SameEnd(Follow(v, p, g)[0], g, Follow(r, p, k)[0], k)
  {
    hide IsCopy, Closed, Follow, Image;
    PathsCorrespond(v, g, m, h, first, p);
    PathsLater(v, g, m, h, first, later, p);
    PathsCorrespond(m, later, r, k, second, p);
    var a, b, c := Follow(v, p, g)[0], Follow(m, p, h)[0], Follow(r, p, k)[0];
    ImageShape(v, g, m, h, first, a, b);
    ImageShape(m, later, r, k, second, b, c);
  }

  /** Handing a value over: v is completed with as it was in g, m is the
      future's, r is what an await gives later. The same paths exist in v and
      in r, they end in the same scalars and in objects of the same shape, two of
      them end in one value of v exactly when they do in r, and no object that r
      reaches is one of v's or of the future's, unless it is never copied. */
  lemma HandOff(
    v: Val, g: Graph, m: Val, h: Graph, first: map<Node, Node>, later: Graph, r: Val, k: Graph, second: map<Node, Node>,
    p: seq<Step>, q: seq<Step>)
    requires IsCopy(v, g, m, h, first) && Closed(g) && Within(v, g) && Kept(g, h, later)
    requires IsCopy(m, later, r, k, second) && Closed(later) && Within(m, later)
    requires forall n :: n in g && !g[n].shape.Shared? ==> n !in k
    ensures |Follow(v, p, g)| == |Follow(r, p, k)|
    ensures |Follow(v, p, g)| == 1 ==> SameEnd(Follow(v, p, g)[0], g, Follow(r, p, k)[0], k)
    ensures |Follow(v, p, g)| == 1 && |Follow(v, q, g)| == 1 ==>
              (Follow(v, p, g) == Follow(v, q, g) <==> Follow(r, p, k) == Follow(r, q, k))
    ensures |Follow(r, p, k)| == 1 ==>
              var end := Follow(r, p, k)[0];
              (end.Ref? && end.o in g ==> g[end.o].shape.Shared?) &&
              (end.Ref? && end.o in later ==> later[end.o].shape.Shared?)
  {
    hide IsCopy, Closed, Follow, Kept, SameEnd;
    PathsCorrespond(v, g, m, h, first, p);
    PathsCorrespond(v, g, m, h, first, q);
    PathsLater(v, g, m, h, first, later, p);
    PathsLater(v, g, m, h, first, later, q);
    PathsCorrespond(m, later, r, k, second, p);
    PathsCorrespond(m, later, r, k, second, q);
    if |Follow(v, p, g)| == 1 {
      NothingShared(m, later, r, k, second, p);
      EndOutside(v, g, m, h, first, later, r, k, second, p);
      EndSame(v, g, m, h, first, later, r, k, second, p);
      if |Follow(v, q, g)| == 1 {
        SharingKept(v, g, m, h, first, p, q);
        SharingKept(m, later, r, k, second, p, q);
      }
    }
  }

  lemma EndOutside(
    v: Val, g: Graph, m: Val, h: Graph, first: map<Node, Node>, later: Graph, r: Val, k: Graph, second: map<Node, Node>,
    p: seq<Step>)
    requires IsCopy(v, g, m, h, first) && Closed(g) && Within(v, g) && Kept(g, h, later)
    requires IsCopy(m, later, r, k, second) && Closed(later) && Within(m, later)
    requires forall n :: n in g && !g[n].shape.Shared? ==> n !in k
    requires |Follow(v, p, g)| == 1
    ensures |Follow(r, p, k)| == 1
    ensures var end := Follow(r, p, k)[0]; end.Ref? && end.o in g ==> g[end.o].shape.Shared?
  {
    hide Closed, Follow, CopyOf, Injective;
    PathsCorrespond(v, g, m, h, first, p);
    PathsLater(v, g, m, h, first, later, p);
    PathsCorrespond(m, later, r, k, second, p);
    var a, b, c := Follow(v, p, g)[0], Follow(m, p, h)[0], Follow(r, p, k)[0];
    ImageInside(a, b, g, h, first);
    if Copied(b, later) {
      assert c.o in k;
    }
  }

  /** r, with the objects k, is what an await delivers of v, with the objects g,
      while the objects of `later` are there: the same paths, shared as in v, and
      nothing but uncopied objects in common with what was there before. */
  ghost predicate Delivered(v: Val, g: Graph, r: Val, k: Graph, later: Graph) {
    (forall p: seq<Step> :: |Follow(v, p, g)| == |Follow(r, p, k)| && Ends(Follow(v, p, g), g, Follow(r, p, k), k, later)) &&
    forall p: seq<Step>, q: seq<Step> :: |Follow(v, p, g)| == 1 && |Follow(v, q, g)| == 1 ==>
      (Follow(v, p, g) == Follow(v, q, g) <==> Follow(r, p, k) == Follow(r, q, k))
  }

  /** Where a path ends in both. */
  predicate Ends(a: seq<Val>, g: Graph, c: seq<Val>, k: Graph, later: Graph)
    requires |a| == |c|
  {
    |c| == 1 ==> SameEnd(a[0], g, c[0], k) && Apart(c[0], later)
  }

  predicate Apart(end: Val, later: Graph) { end.Ref? && end.o in later ==> later[end.o].shape.Shared? }

  /** The objects with their copies are closed again. */
  lemma ClosedWithCopies(v: Val, g: Graph, m: Val, h: Graph, copies: map<Node, Node>, later: Graph)
    requires IsCopy(v, g, m, h, copies) && Closed(g) && Within(v, g)
    requires later.Keys == g.Keys + h.Keys
    requires (forall n :: n in g ==> later[n] == g[n]) && (forall n :: n in h ==> later[n] == h[n])
    ensures Closed(later) && Within(m, later) && Kept(g, h, later)
  {
    hide Injective, ContentClosed, CopyOf;
    forall n | n in later ensures ContentClosed(later[n], later) {
      if n in g {
        ShapeOf(n, g);
        StaysClosed(g[n], g, later);
      } else {
        var o :| o in copies && copies[o] == n;
        ShapeOf(o, g);
        CopyClosed(g[o], h[n], g, copies, later);
      }
    }
  }

  lemma StaysClosed(c: Content, g: Graph, later: Graph)
    requires ContentClosed(c, g) && g.Keys <= later.Keys
    ensures ContentClosed(c, later)
  {
  }

  lemma CopyClosed(a: Content, b: Content, g: Graph, copies: map<Node, Node>, later: Graph)
    requires ContentClosed(a, g) && CopyOf(a, b, copies, g) && g.Keys <= later.Keys
    requires forall n :: n in copies ==> copies[n] in later
    ensures ContentClosed(b, later)
  {
    forall i | 0 <= i < |b.elems| ensures Within(b.elems[i], later) {
      assert Within(a.elems[i], g) && Image(a.elems[i], b.elems[i], copies, g);
    }
    forall k | k in b.entries ensures Within(b.entries[k], later) {
      assert Within(a.entries[k], g) && Image(a.entries[k], b.entries[k], copies, g);
    }
  }

  /** Completing a future and awaiting it: the value arrives as an independent
      copy of what it was. */
  method Deliver(f: Future, v: Val, ghost heap: set<Node>)
    returns (r: Val, ghost g: Graph, ghost k: Graph, ghost later: Graph)
    requires !f.completed && Closed(Snapshot(heap)) && (v.Ref? ==> v.o in heap)
    modifies f
    ensures f.completed && f.error == None && g == old(Snapshot(heap)) && Unchanged(g) && Unchanged(k)
    ensures heap <= later.Keys && Within(f.result, later) && Delivered(v, g, r, k, later)
  {
    hide IsCopy, Closed, Kept;
    var ok, error;
    ghost var h, first, now, second;
    ok, g, h, first := f.Complete(v, heap);
    later := Snapshot(heap + h.Keys);
    ClosedWithCopies(v, g, f.result, h, first, later);
    r, error, now, k, second := f.Await(heap + h.Keys);
    CopiesAre(f.result, later, r, k, second);
    Arrives(v, g, f.result, h, first, later, r, k, second);
  }

  lemma CopiesAre(v: Val, g: Graph, r: Val, h: Graph, copies: map<Node, Node>)
    requires IsCopy(v, g, r, h, copies)
    ensures h.Keys == copies.Values && h.Keys !! g.Keys
  {
    hide CopyOf, Injective, Image;
  }

  lemma Arrives(v: Val, g: Graph, m: Val, h: Graph, first: map<Node, Node>, later: Graph, r: Val, k: Graph,
                second: map<Node, Node>)
    requires IsCopy(v, g, m, h, first) && Closed(g) && Within(v, g) && Kept(g, h, later)
    requires IsCopy(m, later, r, k, second) && Closed(later) && Within(m, later)
    requires forall n :: n in g && !g[n].shape.Shared? ==> n !in k
    ensures Delivered(v, g, r, k, later)
  {
    hide IsCopy, Closed, Kept, Follow, SameEnd;
    forall p: seq<Step>
      ensures |Follow(v, p, g)| == |Follow(r, p, k)| && Ends(Follow(v, p, g), g, Follow(r, p, k), k, later)
    {
      HandOff(v, g, m, h, first, later, r, k, second, p, p);
    }
    forall p: seq<Step>, q: seq<Step> | |Follow(v, p, g)| == 1 && |Follow(v, q, g)| == 1
      ensures Follow(v, p, g) == Follow(v, q, g) <==> Follow(r, p, k) == Follow(r, q, k)
    {
      HandOff(v, g, m, h, first, later, r, k, second, p, q);
    }
  }
}
