/** The methods of the parser that read type references, advancing `cur`. */
module TypeParsers {
  import opened Options
  import opened TypeText

  class TypeParser {
    const tokens: seq<Tok>
    var cur: nat

    constructor (tokens: seq<Tok>)
      ensures this.tokens == tokens && cur == 0
    {
      this.tokens := tokens;
      cur := 0;
    }

    ghost predicate Did(r: Option<TypeRef>, outcome: Option<Parsed<TypeRef>>)
      reads this
    {
      && cur <= |tokens|
      && (outcome.None? <==> r.None?)
      && (outcome.Some? ==> r == Some(outcome.value.t) && cur == outcome.value.next)
    }

    method MatchToken(t: Tok) returns (ok: bool)
      requires cur <= |tokens|
      modifies this
      ensures ok == Is(tokens, old(cur), t)
      ensures cur == (if ok then old(cur) + 1 else old(cur)) && cur <= |tokens|
    {
      ok := cur < |tokens| && tokens[cur] == t;
      if ok { cur := cur + 1; }
    }

    method ParseTypeRef() returns (r: Option<TypeRef>)
      requires cur <= |tokens|
      modifies this
      ensures Did(r, ParseType(tokens, old(cur)))
      decreases |tokens| - cur, 1
    {
      hide ParsePrimary;
      var primary := ParseTypePrimaryRef();
      if primary.None? { return None; }
      var first := primary.value;
      ghost var whole := Brackets(tokens, cur, first);
      while cur + 1 < |tokens| && tokens[cur] == LeftBracket && tokens[cur + 1] == RightBracket
        invariant old(cur) < cur <= |tokens|
        invariant Brackets(tokens, cur, first) == whole
        decreases |tokens| - cur
      {
        cur := cur + 2;
        first := Named("array", [first]);
      }
      var more := MatchToken(Pipe);
      if !more { return Some(first); }
      var union := [first];
      ghost var all := MoreOptions(tokens, cur, union);
      while true
        invariant old(cur) < cur <= |tokens|
        invariant MoreOptions(tokens, cur, union) == all
        decreases |tokens| - cur
      {
        var next := ParseTypePrimaryRef();
        if next.None? { return None; }
        union := union + [next.value];
        more := MatchToken(Pipe);
        if !more { break; }
      }
      return Some(Union(union));
    }

    method ParseTypePrimaryRef() returns (r: Option<TypeRef>)
      requires cur <= |tokens|
      modifies this
      ensures Did(r, ParsePrimary(tokens, old(cur)))
      decreases |tokens| - cur, 0
    {
      hide ParseType;
      var ok := MatchToken(Question);
      if ok {
        var hasUpper := MatchToken(Extends);
        var isSuper := false;
        if !hasUpper { isSuper := MatchToken(Super); }
        if !hasUpper && !isSuper { return Some(Wildcard); }
        var bound := ParseTypeRef();
        if bound.None? { return None; }
        return Some(Bounded(isSuper, bound.value));
      }
      if cur == |tokens| || !tokens[cur].Id? { return None; }
      var name := tokens[cur].name;
      cur := cur + 1;
      ok := MatchToken(Less);
      if !ok { return Some(Named(name, [])); }
      var args: seq<TypeRef> := [];
      ghost var all := Arguments(tokens, cur, args);
      while true
        invariant old(cur) < cur <= |tokens|
        invariant Arguments(tokens, cur, args) == all
        decreases |tokens| - cur
      {
        var arg := ParseTypeRef();
        if arg.None? { return None; }
        args := args + [arg.value];
        var more := MatchToken(Comma);
        if !more { break; }
      }
      ok := MatchToken(Greater);
      if !ok { return None; }
      return Some(Named(name, args));
    }
  }
}
