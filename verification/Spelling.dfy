/** Where a sequence occurs in another. */
module Spelling {
  /** f stands at `cur`. */
  predicate At<T(==)>(ts: seq<T>, cur: nat, f: seq<T>) {
    cur + |f| <= |ts| && ts[cur..cur + |f|] == f
  }

  lemma AtJoined<T>(ts: seq<T>, cur: nat, f: seq<T>, g: seq<T>)
    ensures At(ts, cur, f + g) <==> At(ts, cur, f) && At(ts, cur + |f|, g)
  {
    if cur + |f| + |g| <= |ts| {
      var w := ts[cur..cur + |f + g|];
      assert w[..|f|] == ts[cur..cur + |f|] && w[|f|..] == ts[cur + |f|..cur + |f| + |g|];
      assert w == w[..|f|] + w[|f|..];
      assert (f + g)[..|f|] == f && (f + g)[|f|..] == g;
    }
  }

  lemma AtOne<T>(ts: seq<T>, cur: nat, t: T)
    ensures At(ts, cur, [t]) <==> cur < |ts| && ts[cur] == t
  {
    if cur < |ts| { assert ts[cur..cur + 1] == [ts[cur]]; }
  }

  lemma AtWhole<T>(ts: seq<T>)
    ensures At(ts, 0, ts)
  {
    assert ts[0..|ts|] == ts;
  }
}
