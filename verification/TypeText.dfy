/** Type references: the parser for them, and the text that they are printed as,
    taken as tokens. Printing what the parser produced and parsing it again
    gives the same reference. */
module TypeText {
  import opened Options
  import opened Spelling

  datatype Tok =
    | Id(name: string) | Less | Greater | Comma | Pipe | Question | Extends | Super
    | LeftBracket | RightBracket | Other(kind: nat)

  /** A name with its arguments, a union, or a wildcard with or without a
      bound. */
  datatype TypeRef =
    | Named(name: string, args: seq<TypeRef>)
    | Union(options: seq<TypeRef>)
    | Wildcard
    | Bounded(isSuper: bool, bound: TypeRef)

  function Size(t: TypeRef): (n: nat)
    ensures n > 0
  {
    match t
    case Named(_, args) => 2 + SizeAll(args)
    case Union(options) => 2 + SizeAll(options)
    case Wildcard => 1
    case Bounded(_, b) => 1 + Size(b)
  }

  function SizeAll(ts: seq<TypeRef>): nat {
    if ts == [] then 0 else 1 + Size(ts[0]) + SizeAll(ts[1..])
  }

  // ---------------------------------------------------------------- printing

  /** typeRefText, as tokens. A union without options does not occur. */
  function Show(t: TypeRef): (r: seq<Tok>)
    decreases Size(t)
  {
    match t
    case Union(options) => if options == [] then [Id("")] else ShowAll(options, Pipe)
    case Wildcard => [Question]
    case Bounded(isSuper, b) => [Question, if isSuper then Super else Extends] + Show(b)
    case Named(name, args) => if args == [] then [Id(name)] else [Id(name), Less] + ShowAll(args, Comma) + [Greater]
  }

  function ShowAll(ts: seq<TypeRef>, separator: Tok): seq<Tok>
    requires ts != []
    decreases SizeAll(ts)
  {
    if |ts| == 1 then Show(ts[0]) else Show(ts[0]) + [separator] + ShowAll(ts[1..], separator)
  }

  // ----------------------------------------------------------------- parsing

  datatype Parsed<T> = Parsed(t: T, next: nat)

  predicate Is(ts: seq<Tok>, k: nat, t: Tok) { k < |ts| && ts[k] == t }

  function ParseType(ts: seq<Tok>, cur: nat): (r: Option<Parsed<TypeRef>>)
    ensures r.Some? ==> cur < r.value.next <= |ts|
    decreases |ts| - cur, 1
  {
    match ParsePrimary(ts, cur)
    case None => None
    case Some(p) =>
      var q := Brackets(ts, p.next, p.t);
      if Is(ts, q.next, Pipe) then
        match MoreOptions(ts, q.next + 1, [q.t])
        case None => None
        case Some(o) => Some(Parsed(Union(o.t), o.next))
      else Some(q)
  }

  /** Each pair of empty brackets makes an array of what is before it. */
  function Brackets(ts: seq<Tok>, cur: nat, t: TypeRef): (r: Parsed<TypeRef>)
    requires cur <= |ts|
    ensures cur <= r.next <= |ts|
    decreases |ts| - cur, 0
  {
    if Is(ts, cur, LeftBracket) && Is(ts, cur + 1, RightBracket) then Brackets(ts, cur + 2, Named("array", [t]))
    else Parsed(t, cur)
  }

  /** The other options of a union. */
  function MoreOptions(ts: seq<Tok>, cur: nat, before: seq<TypeRef>): (r: Option<Parsed<seq<TypeRef>>>)
    ensures r.Some? ==> cur < r.value.next <= |ts|
    decreases |ts| - cur, 2
  {
    match ParsePrimary(ts, cur)
    case None => None
    case Some(p) =>
      if Is(ts, p.next, Pipe) then MoreOptions(ts, p.next + 1, before + [p.t])
      else Some(Parsed(before + [p.t], p.next))
  }

  function ParsePrimary(ts: seq<Tok>, cur: nat): (r: Option<Parsed<TypeRef>>)
    ensures r.Some? ==> cur < r.value.next <= |ts|
    decreases |ts| - cur, 0
  {
    if Is(ts, cur, Question) then
      if Is(ts, cur + 1, Extends) || Is(ts, cur + 1, Super) then
        match ParseType(ts, cur + 2)
        case None => None
        case Some(p) => Some(Parsed(Bounded(ts[cur + 1] == Super, p.t), p.next))
      else Some(Parsed(Wildcard, cur + 1))
    else if cur < |ts| && ts[cur].Id? then
      if Is(ts, cur + 1, Less) then
        match Arguments(ts, cur + 2, [])
        case None => None
        case Some(a) =>
          if Is(ts, a.next, Greater) then Some(Parsed(Named(ts[cur].name, a.t), a.next + 1)) else None
      else Some(Parsed(Named(ts[cur].name, []), cur + 1))
    else None
  }

  function Arguments(ts: seq<Tok>, cur: nat, before: seq<TypeRef>): (r: Option<Parsed<seq<TypeRef>>>)
    ensures r.Some? ==> cur < r.value.next <= |ts|
    decreases |ts| - cur, 2
  {
    match ParseType(ts, cur)
    case None => None
    case Some(p) =>
      if Is(ts, p.next, Comma) then Arguments(ts, p.next + 1, before + [p.t])
      else Some(Parsed(before + [p.t], p.next))
  }

  // ------------------------------------------------------ what can be parsed

  /** The references that the parser produces: unions have at least two options,
      none a union itself, and a bounded wildcard only as the last one, because
      its bound takes the options that follow. */
  predicate Producible(t: TypeRef)
    decreases Size(t)
  {
    match t
    case Named(_, args) => AllProducible(args)
    case Union(options) =>
      |options| >= 2 && AllProducible(options) && forall k :: 0 <= k < |options| ==>
        !options[k].Union? && (options[k].Bounded? ==> k == |options| - 1)
    case Wildcard => true
    case Bounded(_, b) => Producible(b)
  }

  predicate AllProducible(ts: seq<TypeRef>)
    decreases SizeAll(ts)
  {
    ts == [] || (Producible(ts[0]) && AllProducible(ts[1..]))
  }

  lemma {:induction false} AllProducibleNext(ts: seq<TypeRef>, t: TypeRef)
    requires AllProducible(ts) && Producible(t)
    ensures AllProducible(ts + [t])
  {
    if ts == [] {
      assert ts + [t] == [t] && AllProducible([t][1..]);
    } else {
      AllProducibleNext(ts[1..], t);
      assert (ts + [t])[1..] == ts[1..] + [t];
    }
  }

  /** Options so far: none a union or a bounded wildcard. */
  predicate Plain(ts: seq<TypeRef>) { forall k :: 0 <= k < |ts| ==> !ts[k].Union? && !ts[k].Bounded? }

  lemma {:induction false} TypeProducible(ts: seq<Tok>, cur: nat)
    requires ParseType(ts, cur).Some?
    ensures Producible(ParseType(ts, cur).value.t) && !Is(ts, ParseType(ts, cur).value.next, Pipe)
    decreases |ts| - cur, 1
  {
    hide ParsePrimary, MoreOptions, Producible;
    PrimaryProducible(ts, cur);
    var p := ParsePrimary(ts, cur).value;
    BracketsProducible(ts, p.next, p.t);
    var q := Brackets(ts, p.next, p.t);
    if Is(ts, q.next, Pipe) {
      OnlyOne(q.t);
      OptionsProducible(ts, q.next + 1, [q.t]);
    }
  }

  lemma OnlyOne(t: TypeRef)
    requires Producible(t)
    ensures AllProducible([t])
  {
    assert AllProducible([t][1..]);
  }

  lemma {:induction false} BracketsProducible(ts: seq<Tok>, cur: nat, t: TypeRef)
    requires cur <= |ts| && Producible(t) && !t.Union? && (t.Bounded? ==> !Is(ts, cur, Pipe))
    ensures var q := Brackets(ts, cur, t);
            Producible(q.t) && !q.t.Union? && (q.t.Bounded? ==> !Is(ts, q.next, Pipe))
    decreases |ts| - cur
  {
    if Is(ts, cur, LeftBracket) && Is(ts, cur + 1, RightBracket) {
      OnlyOne(t);
      BracketsProducible(ts, cur + 2, Named("array", [t]));
    }
  }

  lemma {:induction false} OptionsProducible(ts: seq<Tok>, cur: nat, before: seq<TypeRef>)
    requires MoreOptions(ts, cur, before).Some? && before != [] && AllProducible(before) && Plain(before)
    ensures Producible(Union(MoreOptions(ts, cur, before).value.t)) && !Is(ts, MoreOptions(ts, cur, before).value.next, Pipe)
    decreases |ts| - cur, 2
  {
    hide ParsePrimary;
    PrimaryProducible(ts, cur);
    var p := ParsePrimary(ts, cur).value;
    AllProducibleNext(before, p.t);
    if Is(ts, p.next, Pipe) { OptionsProducible(ts, p.next + 1, before + [p.t]); }
  }

  lemma {:induction false} PrimaryProducible(ts: seq<Tok>, cur: nat)
    requires ParsePrimary(ts, cur).Some?
    ensures var p := ParsePrimary(ts, cur).value;
            Producible(p.t) && !p.t.Union? && (p.t.Bounded? ==> !Is(ts, p.next, Pipe))
    decreases |ts| - cur, 0
  {
    hide ParseType, Arguments;
    if Is(ts, cur, Question) {
      if Is(ts, cur + 1, Extends) || Is(ts, cur + 1, Super) { TypeProducible(ts, cur + 2); }
    } else if Is(ts, cur + 1, Less) {
      ArgumentsProducible(ts, cur + 2, []);
    }
  }

  lemma {:induction false} ArgumentsProducible(ts: seq<Tok>, cur: nat, before: seq<TypeRef>)
    requires Arguments(ts, cur, before).Some? && AllProducible(before)
    ensures AllProducible(Arguments(ts, cur, before).value.t)
    decreases |ts| - cur, 2
  {
    hide ParseType;
    TypeProducible(ts, cur);
    var p := ParseType(ts, cur).value;
    AllProducibleNext(before, p.t);
    if Is(ts, p.next, Comma) { ArgumentsProducible(ts, p.next + 1, before + [p.t]); }
  }

  // ------------------------------------------------------- parsing the print

  /** What follows does not continue a name or a wildcard. */
  predicate Ends(ts: seq<Tok>, k: nat) { !Is(ts, k, Less) && !Is(ts, k, Extends) && !Is(ts, k, Super) }

  /** What follows does not continue a type either. */
  predicate Stops(ts: seq<Tok>, k: nat) { Ends(ts, k) && !Is(ts, k, Pipe) && !Is(ts, k, LeftBracket) }

  lemma {:induction false} PrimaryParsed(ts: seq<Tok>, cur: nat, t: TypeRef)
    requires At(ts, cur, Show(t)) && Producible(t) && !t.Union?
    requires if t.Bounded? then Stops(ts, cur + |Show(t)|) else Ends(ts, cur + |Show(t)|)
    ensures ParsePrimary(ts, cur) == Some(Parsed(t, cur + |Show(t)|))
    decreases Size(t), 0
  {
    hide ParseType, Arguments, At;
    match t
    case Wildcard => AtOne(ts, cur, Question);
    case Bounded(isSuper, b) =>
      var kind := if isSuper then Super else Extends;
      AtJoined(ts, cur, [Question, kind], Show(b));
      AtTwo(ts, cur, Question, kind);
      TypeParsed(ts, cur + 2, b);
    case Named(name, args) =>
      if args == [] {
        AtOne(ts, cur, Id(name));
      } else {
        var inner := ShowAll(args, Comma);
        AtJoined(ts, cur, [Id(name), Less] + inner, [Greater]);
        AtJoined(ts, cur, [Id(name), Less], inner);
        AtTwo(ts, cur, Id(name), Less);
        AtOne(ts, cur + 2 + |inner|, Greater);
        ArgumentsParsed(ts, cur + 2, args, []);
        assert [] + args == args;
      }
  }

  lemma AtTwo(ts: seq<Tok>, cur: nat, a: Tok, b: Tok)
    ensures At(ts, cur, [a, b]) <==> Is(ts, cur, a) && Is(ts, cur + 1, b)
  {
    assert [a, b] == [a] + [b];
    AtJoined(ts, cur, [a], [b]);
    AtOne(ts, cur, a);
    AtOne(ts, cur + 1, b);
  }

  lemma {:induction false} TypeParsed(ts: seq<Tok>, cur: nat, t: TypeRef)
    requires At(ts, cur, Show(t)) && Producible(t) && Stops(ts, cur + |Show(t)|)
    ensures ParseType(ts, cur) == Some(Parsed(t, cur + |Show(t)|))
    decreases Size(t), 1
  {
    hide ParsePrimary, MoreOptions, At;
    if t.Union? {
      var first, rest := t.options[0], t.options[1..];
      assert SizeAll(t.options) == 1 + Size(first) + SizeAll(rest);
      AtJoined(ts, cur, Show(first) + [Pipe], ShowAll(rest, Pipe));
      AtJoined(ts, cur, Show(first), [Pipe]);
      AtOne(ts, cur + |Show(first)|, Pipe);
      PrimaryParsed(ts, cur, first);
      OptionsParsed(ts, cur + |Show(first)| + 1, rest, [first]);
      assert [first] + rest == t.options;
    } else {
      PrimaryParsed(ts, cur, t);
    }
  }

  lemma {:induction false} OptionsParsed(ts: seq<Tok>, cur: nat, rest: seq<TypeRef>, before: seq<TypeRef>)
    requires rest != [] && At(ts, cur, ShowAll(rest, Pipe)) && AllProducible(rest)
    requires forall k :: 0 <= k < |rest| ==> !rest[k].Union? && (rest[k].Bounded? ==> k == |rest| - 1)
    requires Stops(ts, cur + |ShowAll(rest, Pipe)|)
    ensures MoreOptions(ts, cur, before) == Some(Parsed(before + rest, cur + |ShowAll(rest, Pipe)|))
    decreases SizeAll(rest)
  {
    hide ParsePrimary, At;
    if |rest| == 1 {
      PrimaryParsed(ts, cur, rest[0]);
      assert rest == [rest[0]];
    } else {
      var n := |Show(rest[0])|;
      AtJoined(ts, cur, Show(rest[0]) + [Pipe], ShowAll(rest[1..], Pipe));
      AtJoined(ts, cur, Show(rest[0]), [Pipe]);
      AtOne(ts, cur + n, Pipe);
      PrimaryParsed(ts, cur, rest[0]);
      OptionsParsed(ts, cur + n + 1, rest[1..], before + [rest[0]]);
      assert before + [rest[0]] + rest[1..] == before + rest;
    }
  }

  lemma {:induction false} ArgumentsParsed(ts: seq<Tok>, cur: nat, rest: seq<TypeRef>, before: seq<TypeRef>)
    requires rest != [] && At(ts, cur, ShowAll(rest, Comma)) && AllProducible(rest)
    requires Is(ts, cur + |ShowAll(rest, Comma)|, Greater)
    ensures Arguments(ts, cur, before) == Some(Parsed(before + rest, cur + |ShowAll(rest, Comma)|))
    decreases SizeAll(rest)
  {
    hide ParseType, At;
    if |rest| == 1 {
      TypeParsed(ts, cur, rest[0]);
      assert rest == [rest[0]];
    } else {
      var n := |Show(rest[0])|;
      AtJoined(ts, cur, Show(rest[0]) + [Comma], ShowAll(rest[1..], Comma));
      AtJoined(ts, cur, Show(rest[0]), [Comma]);
      AtOne(ts, cur + n, Comma);
      TypeParsed(ts, cur, rest[0]);
      ArgumentsParsed(ts, cur + n + 1, rest[1..], before + [rest[0]]);
      assert before + [rest[0]] + rest[1..] == before + rest;
    }
  }

  /** A reference comes back from its text exactly when the parser can produce
      it. */
  lemma PrintedExactly(t: TypeRef)
    ensures ParseType(Show(t), 0) == Some(Parsed(t, |Show(t)|)) <==> Producible(t)
  {
    hide ParseType, Show, Producible;
    if Producible(t) {
      AtWhole(Show(t));
      TypeParsed(Show(t), 0, t);
    }
    if ParseType(Show(t), 0).Some? { TypeProducible(Show(t), 0); }
  }

  /** Whatever was parsed, its text is read back as the same reference. */
  lemma PrintedParse(ts: seq<Tok>, cur: nat)
    requires ParseType(ts, cur).Some?
    ensures var t := ParseType(ts, cur).value.t; ParseType(Show(t), 0) == Some(Parsed(t, |Show(t)|))
  {
    TypeProducible(ts, cur);
    PrintedExactly(ParseType(ts, cur).value.t);
  }

  // ------------------------------------------------------------------ arrays

  /** n nested arrays of t. */
  function ArrayOf(t: TypeRef, n: nat): TypeRef { if n == 0 then t else Named("array", [ArrayOf(t, n - 1)]) }

  /** n pairs of brackets. */
  function Pairs(n: nat): (r: seq<Tok>)
    ensures |r| == 2 * n && forall k :: 0 <= k < n ==> r[2 * k] == LeftBracket && r[2 * k + 1] == RightBracket
  {
    if n == 0 then [] else Pairs(n - 1) + [LeftBracket, RightBracket]
  }

  lemma {:induction false} ArrayInside(t: TypeRef, n: nat)
    ensures ArrayOf(Named("array", [t]), n) == ArrayOf(t, n + 1)
  {
    if n > 0 { ArrayInside(t, n - 1); }
  }

  lemma {:induction false} BracketsNest(ts: seq<Tok>, cur: nat, t: TypeRef, n: nat)
    requires cur + 2 * n <= |ts| && !Is(ts, cur + 2 * n, LeftBracket)
    requires forall k :: 0 <= k < n ==> ts[cur + 2 * k] == LeftBracket && ts[cur + 2 * k + 1] == RightBracket
    ensures Brackets(ts, cur, t) == Parsed(ArrayOf(t, n), cur + 2 * n)
    decreases n
  {
    if n > 0 {
      assert ts[cur + 2 * 0] == LeftBracket;
      forall k | 0 <= k < n - 1
        ensures ts[cur + 2 + 2 * k] == LeftBracket && ts[cur + 2 + 2 * k + 1] == RightBracket
      {
        assert ts[cur + 2 * (k + 1)] == LeftBracket;
      }
      BracketsNest(ts, cur + 2, Named("array", [t]), n - 1);
      ArrayInside(t, n - 1);
    }
  }

  /** A name with its arguments, or a wildcard, followed by n pairs of brackets
      is an n-fold array of it. */
  lemma ArraysParsed(ts: seq<Tok>, cur: nat, t: TypeRef, n: nat)
    requires Producible(t) && (t.Named? || t == Wildcard) && At(ts, cur, Show(t) + Pairs(n))
    requires Stops(ts, cur + |Show(t)| + 2 * n)
    ensures ParseType(ts, cur) == Some(Parsed(ArrayOf(t, n), cur + |Show(t)| + 2 * n))
  {
    hide ParsePrimary, MoreOptions, Show, Producible, At;
    AtJoined(ts, cur, Show(t), Pairs(n));
    var mid := cur + |Show(t)|;
    PairsThere(ts, mid, n);
    if n > 0 { assert ts[mid + 2 * 0] == LeftBracket; }
    PrimaryParsed(ts, cur, t);
    BracketsNest(ts, mid, t, n);
  }

  lemma PairsThere(ts: seq<Tok>, cur: nat, n: nat)
    requires At(ts, cur, Pairs(n))
    ensures cur + 2 * n <= |ts|
    ensures forall k :: 0 <= k < n ==> ts[cur + 2 * k] == LeftBracket && ts[cur + 2 * k + 1] == RightBracket
  {
    forall k | 0 <= k < n ensures ts[cur + 2 * k] == LeftBracket && ts[cur + 2 * k + 1] == RightBracket {
      assert Pairs(n)[2 * k] == LeftBracket;
      assert ts[cur..cur + 2 * n][2 * k] == ts[cur + 2 * k] && ts[cur..cur + 2 * n][2 * k + 1] == ts[cur + 2 * k + 1];
    }
  }
}
