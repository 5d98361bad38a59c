/** Which bytecode the JIT accepts: a walk over its instructions, from the first
    byte to the first RETURN, with the static stack depth at each. */
module JitAccepts {
  import opened Options
  import opened Machine
  import opened JitIr
  import opened JitLower
  import opened JitCompile

  // ---------------------------------------------------------------- opcodes

  const PUSHING: set<byte> := {GET_LOCAL, CONSTANT, NIL, TRUE, FALSE}
  const TWO_OPERANDS: set<byte> :=
    {ADD, SUB, MUL, MOD, ADD_NUM, SUB_NUM, MUL_NUM, MOD_NUM, EQUAL, LESS_NUM, GREATER_NUM}
  const JUMPING: set<byte> := {JUMP, LOOP, JUMP_IF_FALSE, JUMP_IF_TRUE}

  /** What can stand before the first RETURN. */
  const KNOWN: set<byte> :=
    PUSHING + TWO_OPERANDS + JUMPING +
    {SET_LOCAL, POP, NOT, NEGATE, RANGE_INIT_FAST, RANGE_NEXT_FAST, ADD_LOCAL_MUL_LOCAL}

  function Length(op: byte): nat {
    if op in JUMPING || op == CONSTANT then 3
    else if op == GET_LOCAL || op == SET_LOCAL then 2
    else if op == ADD_LOCAL_MUL_LOCAL then 4
    else if op == RANGE_INIT_FAST then 5
    else if op == RANGE_NEXT_FAST then 7
    else 1
  }

  function Needs(op: byte): nat {
    if op in TWO_OPERANDS then 2
    else if op in {SET_LOCAL, POP, NOT, NEGATE, JUMP_IF_FALSE, JUMP_IF_TRUE} then 1
    else 0
  }

  /** SET_LOCAL leaves its operand. */
  function Change(op: byte): int {
    if op in PUSHING then 1 else if op in TWO_OPERANDS || op == POP then -1 else 0
  }

  /** The rule of an opcode is what the tables say. */
  ghost predicate RuleFits(op: byte, r: Rule) {
    r.size == Length(op) && r.needs == Needs(op) && r.delta == Change(op) &&
    (Jumps(r.op) <==> op in JUMPING || op == RANGE_NEXT_FAST) && (r.op == RangeNextFast <==> op == RANGE_NEXT_FAST) &&
    (r.op == LoadConst <==> op == CONSTANT) && (r.op == RangeInitFast <==> op == RANGE_INIT_FAST)
  }

  lemma RuleIs(op: byte)
    ensures RuleOf(op).Some? <==> op in KNOWN || op == RETURN
    ensures op in KNOWN ==> RuleFits(op, RuleOf(op).value) && op != RETURN
  {
    hide RuleFits;
    if op in PUSHING { PushingIs(op); }
    else if op in TWO_OPERANDS { TwoOperandsIs(op); }
    else if op in JUMPING { JumpingIs(op); }
    else { OtherIs(op); }
  }

  lemma PushingIs(op: byte)
    requires op in PUSHING
    ensures RuleOf(op).Some? && RuleFits(op, RuleOf(op).value) && op != RETURN
  {
  }

  lemma TwoOperandsIs(op: byte)
    requires op in TWO_OPERANDS
    ensures RuleOf(op).Some? && RuleFits(op, RuleOf(op).value) && op != RETURN
  {
  }

  lemma JumpingIs(op: byte)
    requires op in JUMPING
    ensures RuleOf(op).Some? && RuleFits(op, RuleOf(op).value) && op != RETURN
  {
  }

  lemma OtherIs(op: byte)
    requires op !in PUSHING && op !in TWO_OPERANDS && op !in JUMPING
    ensures RuleOf(op).Some? <==> op in KNOWN || op == RETURN
    ensures op in KNOWN ==> RuleFits(op, RuleOf(op).value) && op != RETURN
  {
  }

  // -------------------------------------------------------------------- walks

  /** An instruction: its first byte, and the depth there. */
  datatype Visit = Visit(at: nat, depth: int)

  /** The instruction can be passed. */
  predicate Passes(code: seq<byte>, pool: seq<Value>, v: Visit) {
    v.at < |code| && code[v.at] in KNOWN && v.at + Length(code[v.at]) <= |code| && v.depth >= Needs(code[v.at]) &&
    (code[v.at] == RANGE_INIT_FAST ==> v.depth >= code[v.at + 4]) &&
    (code[v.at] == CONSTANT ==> ReadUint16(code, v.at + 1) < |pool|)
  }

  /** RETURN with an operand, and nothing but NIL and RETURN behind it. */
  predicate Stops(code: seq<byte>, v: Visit) {
    v.at < |code| && code[v.at] == RETURN && v.depth >= 1 &&
    forall i :: v.at < i < |code| ==> code[i] == NIL || code[i] == RETURN
  }

  /** The depth behind an instruction. */
  function After(code: seq<byte>, v: Visit): int
    requires v.at < |code| && v.at + Length(code[v.at]) <= |code|
  {
    v.depth + Change(code[v.at]) - if code[v.at] == RANGE_INIT_FAST then code[v.at + 4] as int else 0
  }

  /** Where a jump leads. */
  function Target(code: seq<byte>, v: Visit): int
    requires v.at < |code| && v.at + Length(code[v.at]) <= |code| && Length(code[v.at]) >= 3
  {
    var end := v.at + Length(code[v.at]);
    if code[v.at] == LOOP then end - ReadUint16(code, end - 2) else end + ReadUint16(code, end - 2)
  }

  predicate HasTarget(code: seq<byte>, v: Visit) {
    v.at < |code| && (code[v.at] in JUMPING || code[v.at] == RANGE_NEXT_FAST) &&
    Length(code[v.at]) >= 3 && v.at + Length(code[v.at]) <= |code|
  }

  /** The depth at a jump is known at its target; at that of RANGE_NEXT_FAST it is
      not. */
  predicate Leads(code: seq<byte>, v: Visit, o: int) {
    HasTarget(code, v) && code[v.at] in JUMPING && Target(code, v) == o
  }

  predicate AllPass(code: seq<byte>, pool: seq<Value>, walk: seq<Visit>) {
    forall k :: 0 <= k < |walk| ==> Passes(code, pool, walk[k])
  }

  /** Where the instruction behind the walk begins, and the depth on the way. */
  function Next(code: seq<byte>, pool: seq<Value>, walk: seq<Visit>): Visit
    requires AllPass(code, pool, walk)
  {
    if walk == [] then Visit(0, 0)
    else
      var v := walk[|walk| - 1];
      Visit(v.at + Length(code[v.at]), After(code, v))
  }

  /** The depth at the next instruction is the greatest of the depth on the way
      and the depths of the earlier jumps to it. */
  predicate DepthIs(code: seq<byte>, pool: seq<Value>, walk: seq<Visit>, v: Visit)
    requires AllPass(code, pool, walk)
  {
    var way := Next(code, pool, walk).depth;
    way <= v.depth && (forall j :: 0 <= j < |walk| && Leads(code, walk[j], v.at) ==> walk[j].depth <= v.depth) &&
    (v.depth == way || exists j :: 0 <= j < |walk| && Leads(code, walk[j], v.at) && walk[j].depth == v.depth)
  }

  predicate Follows(code: seq<byte>, pool: seq<Value>, walk: seq<Visit>, v: Visit) {
    AllPass(code, pool, walk) && v.at == Next(code, pool, walk).at && DepthIs(code, pool, walk, v)
  }

  /** The walk passes instructions one behind the other, with their depths. */
  predicate IsWalk(code: seq<byte>, pool: seq<Value>, walk: seq<Visit>) {
    AllPass(code, pool, walk) && forall k :: 0 <= k < |walk| ==> Follows(code, pool, walk[..k], walk[k])
  }

  predicate Visited(walk: seq<Visit>, o: int) { exists k :: 0 <= k < |walk| && walk[k].at == o }

  /** A walk up to the first RETURN, whose jumps lead to instructions on it or to
      the end of the code. */
  predicate Legal(code: seq<byte>, pool: seq<Value>, walk: seq<Visit>, last: Visit) {
    IsWalk(code, pool, walk) && Follows(code, pool, walk, last) && Stops(code, last) &&
    forall k :: 0 <= k < |walk| && HasTarget(code, walk[k]) ==>
      var t := Target(code, walk[k]);
      Visited(walk, t) || t == last.at || t == |code|
  }

  // -------------------------------------------------------------- one turn

  /** What one turn needs and does. */
  lemma TurnMeans(code: seq<byte>, pool: seq<Value>, s: Scan)
    requires s.offset < |code| && code[s.offset] != RETURN
    ensures Turn(code, pool, s).Some? <==> Passes(code, pool, Visit(s.offset, DepthAt(s)))
    ensures Passes(code, pool, Visit(s.offset, DepthAt(s))) ==> Turned(code, s, Turn(code, pool, s).value)
  {
    hide *;
    RuleIs(code[s.offset]);
    if RuleOf(code[s.offset]).Some? && Fitting(code, Visit(s.offset, DepthAt(s)), RuleOf(code[s.offset]).value) {
      TurnTaken(code, pool, s, RuleOf(code[s.offset]).value);
    } else {
      TurnRefused(code, pool, s);
    }
  }

  lemma TurnRefused(code: seq<byte>, pool: seq<Value>, s: Scan)
    requires s.offset < |code| && code[s.offset] != RETURN
    requires var r := RuleOf(code[s.offset]);
             r.None? || !Fitting(code, Visit(s.offset, DepthAt(s)), r.value)
    ensures Turn(code, pool, s).None? && !Passes(code, pool, Visit(s.offset, DepthAt(s)))
  {
    hide RuleOf, KNOWN, Passes, RuleFits, DepthAt, Turn, ArgcAt;
    RuleIs(code[s.offset]);
    TurnRejects(code, pool, s);
    NotPassed(code, pool, Visit(s.offset, DepthAt(s)));
  }

  lemma NotPassed(code: seq<byte>, pool: seq<Value>, v: Visit)
    requires v.at < |code|
    ensures Passes(code, pool, v) ==>
              code[v.at] in KNOWN && forall r :: RuleFits(code[v.at], r) ==> Fitting(code, v, r)
  {
    Arguments(code, v.at);
    hide KNOWN, PUSHING, TWO_OPERANDS, JUMPING, Needs, Change, Length, ReadUint16, ArgcAt, Jumps;
  }

  lemma TurnTaken(code: seq<byte>, pool: seq<Value>, s: Scan, rule: Rule)
    requires s.offset < |code| && RuleOf(code[s.offset]) == Some(rule) && code[s.offset] in KNOWN
    requires RuleFits(code[s.offset], rule) && Fitting(code, Visit(s.offset, DepthAt(s)), rule)
    ensures Turn(code, pool, s).Some? <==> Passes(code, pool, Visit(s.offset, DepthAt(s)))
    ensures Turn(code, pool, s).Some? ==> Turned(code, s, Turn(code, pool, s).value)
  {
    hide RuleOf, KNOWN, Needs, Change, Length, DepthAt, Turned, LoweredConst, LoweredInit, LoweredNext, LoweredJump,
         LoweredPlain, Moved, Turn, Passes, ArgcAt, Jumps;
    TurnIs(code, pool, s, rule);
    TurnedBy(code, pool, s, rule);
    FittingPasses(code, pool, Visit(s.offset, DepthAt(s)), rule);
  }

  predicate Fitting(code: seq<byte>, v: Visit, rule: Rule) {
    v.at + rule.size <= |code| && v.depth >= rule.needs && (v.at < |code| ==> v.depth >= ArgcAt(code, v.at))
  }

  lemma FittingPasses(code: seq<byte>, pool: seq<Value>, v: Visit, rule: Rule)
    requires v.at < |code| && RuleFits(code[v.at], rule) && code[v.at] in KNOWN && Fitting(code, v, rule)
    ensures Passes(code, pool, v) <==>
            (rule.op == LoadConst ==> v.at + 3 <= |code| && ReadUint16(code, v.at + 1) < |pool|)
  {
    Arguments(code, v.at);
    hide KNOWN, PUSHING, TWO_OPERANDS, Needs, Change, ArgcAt, ReadUint16, Jumps;
  }

  lemma Arguments(code: seq<byte>, o: nat)
    requires o < |code|
    ensures o + Length(code[o]) <= |code| ==>
              ArgcAt(code, o) == if code[o] == RANGE_INIT_FAST then code[o + 4] else 0
    ensures ArgcAt(code, o) >= 0
  {
  }

  /** The variables after a turn. */
  ghost predicate Turned(code: seq<byte>, s: Scan, t: Scan) {
    var v := Visit(s.offset, DepthAt(s));
    v.at < |code| && v.at + Length(code[v.at]) <= |code| &&
    t.offset == s.offset + Length(code[s.offset]) && t.depth == After(code, v) &&
    t.index == s.index[s.offset := |s.ir|] && |t.ir| == |s.ir| + 1 &&
    t.patches == s.patches + (if HasTarget(code, v) then [Patch(|s.ir|, Target(code, v))] else []) &&
    t.depths == if code[s.offset] in JUMPING then Recorded(s.depths, Target(code, v), DepthAt(s)) else s.depths
  }

  lemma TurnedBy(code: seq<byte>, pool: seq<Value>, s: Scan, rule: Rule)
    requires s.offset < |code| && RuleOf(code[s.offset]) == Some(rule) && s.offset + rule.size <= |code|
    requires RuleFits(code[s.offset], rule)
    ensures var next := Moved(code, s, rule);
            if rule.op == LoadConst then
              (LoweredConst(code, pool, s, next).Some? <==> ReadUint16(code, s.offset + 1) < |pool|) &&
              (LoweredConst(code, pool, s, next).Some? ==> Turned(code, s, LoweredConst(code, pool, s, next).value))
            else if rule.op == RangeInitFast then Turned(code, s, LoweredInit(code, s, next))
            else if rule.op == RangeNextFast then Turned(code, s, LoweredNext(code, s, next, rule))
            else if Jumps(rule.op) then Turned(code, s, LoweredJump(code, s, next, rule))
            else Turned(code, s, LoweredPlain(code, s, next, rule))
  {
    MovedOn(code, s, rule);
    var next := Moved(code, s, rule);
    if rule.op == LoadConst { TurnedConst(code, pool, s, next); }
    else if rule.op == RangeInitFast { TurnedInit(code, s, next); }
    else if rule.op == RangeNextFast { TurnedNext(code, s, next, rule); }
    else if Jumps(rule.op) { TurnedJump(code, s, next, rule); }
    else { TurnedPlain(code, s, next, rule); }
  }

  /** What Moved changes, and what it keeps. */
  ghost predicate OnTheWay(code: seq<byte>, s: Scan, next: Scan) {
    s.offset < |code| && s.offset + Length(code[s.offset]) <= |code| &&
    next.offset == s.offset + Length(code[s.offset]) && next.depth == After(code, Visit(s.offset, DepthAt(s))) &&
    next.index == s.index[s.offset := |s.ir|] && next.patches == s.patches && next.depths == s.depths && next.ir == s.ir
  }

  lemma MovedOn(code: seq<byte>, s: Scan, rule: Rule)
    requires s.offset < |code| && RuleFits(code[s.offset], rule) && s.offset + rule.size <= |code|
    ensures OnTheWay(code, s, Moved(code, s, rule))
  {
    hide Change, DepthAt;
    assert code[s.offset] == RANGE_INIT_FAST ==> s.offset + 4 < |code|;
  }

  lemma NoTarget(code: seq<byte>, s: Scan)
    requires s.offset < |code| && code[s.offset] !in JUMPING && code[s.offset] != RANGE_NEXT_FAST
    ensures !HasTarget(code, Visit(s.offset, DepthAt(s)))
  {
  }

  lemma TurnedConst(code: seq<byte>, pool: seq<Value>, s: Scan, next: Scan)
    requires OnTheWay(code, s, next) && code[s.offset] == CONSTANT
    ensures LoweredConst(code, pool, s, next).Some? <==> ReadUint16(code, s.offset + 1) < |pool|
    ensures LoweredConst(code, pool, s, next).Some? ==> Turned(code, s, LoweredConst(code, pool, s, next).value)
  {
    NoTarget(code, s);
    hide CacheKey, DepthAt, After, HasTarget;
  }

  lemma TurnedInit(code: seq<byte>, s: Scan, next: Scan)
    requires OnTheWay(code, s, next) && code[s.offset] == RANGE_INIT_FAST
    ensures Turned(code, s, LoweredInit(code, s, next))
  {
    NoTarget(code, s);
    hide DepthAt, After, HasTarget;
  }

  lemma TurnedNext(code: seq<byte>, s: Scan, next: Scan, rule: Rule)
    requires OnTheWay(code, s, next) && code[s.offset] == RANGE_NEXT_FAST && RuleFits(code[s.offset], rule)
    ensures Turned(code, s, LoweredNext(code, s, next, rule))
  {
    NextTarget(code, s, rule);
    NextFields(code, s, next, rule);
    hide DepthAt, After, LoweredNext, Length, HasTarget, JUMPING, TargetOf, Target, Jumps, RuleOf;
  }

  lemma NextTarget(code: seq<byte>, s: Scan, rule: Rule)
    requires s.offset < |code| && code[s.offset] == RANGE_NEXT_FAST && RuleFits(RANGE_NEXT_FAST, rule)
    requires s.offset + Length(RANGE_NEXT_FAST) <= |code|
    ensures var v := Visit(s.offset, DepthAt(s));
            RANGE_NEXT_FAST !in JUMPING && rule.op == RangeNextFast && rule.size == 7 == Length(RANGE_NEXT_FAST) &&
            HasTarget(code, v) && Target(code, v) == TargetOf(code, s.offset, rule)
  {
    hide DepthAt, RuleOf;
  }

  lemma NextFields(code: seq<byte>, s: Scan, next: Scan, rule: Rule)
    requires s.offset + 7 <= |code| && rule.op == RangeNextFast && rule.size == 7
    ensures var t := LoweredNext(code, s, next, rule);
            t.offset == next.offset && t.depth == next.depth && t.index == next.index && |t.ir| == |s.ir| + 1 &&
            t.patches == s.patches + [Patch(|s.ir|, TargetOf(code, s.offset, rule))] && t.depths == next.depths
  {
    hide TargetOf, MetaIndex;
  }

  lemma TurnedJump(code: seq<byte>, s: Scan, next: Scan, rule: Rule)
    requires OnTheWay(code, s, next) && code[s.offset] in JUMPING && RuleFits(code[s.offset], rule)
    ensures Turned(code, s, LoweredJump(code, s, next, rule))
  {
    hide DepthAt, After, Recorded;
  }

  lemma TurnedPlain(code: seq<byte>, s: Scan, next: Scan, rule: Rule)
    requires OnTheWay(code, s, next) && code[s.offset] !in JUMPING && code[s.offset] != RANGE_NEXT_FAST
    requires RuleOf(code[s.offset]) == Some(rule) && RuleFits(code[s.offset], rule)
    ensures Turned(code, s, LoweredPlain(code, s, next, rule))
  {
    NoTarget(code, s);
    hide DepthAt, After, HasTarget, PlainIr;
  }

  // --------------------------------------------------------------- the pass

  /** The variables of the pass after a walk. */
  ghost predicate Reached(code: seq<byte>, pool: seq<Value>, s: Scan, walk: seq<Visit>) {
    AllPass(code, pool, walk) && s.offset == Next(code, pool, walk).at && s.depth == Next(code, pool, walk).depth &&
    |s.ir| == |walk| && (forall o :: o in s.index <==> Visited(walk, o)) && DepthsKnown(code, s.depths, walk) &&
    TargetsKnown(code, s.patches, walk)
  }

  ghost predicate DepthsKnown(code: seq<byte>, depths: map<int, int>, walk: seq<Visit>) {
    (forall o :: o in depths ==> exists j :: 0 <= j < |walk| && Leads(code, walk[j], o) && walk[j].depth == depths[o]) &&
    forall j, o :: 0 <= j < |walk| && Leads(code, walk[j], o) ==> o in depths && walk[j].depth <= depths[o]
  }

  ghost predicate TargetsKnown(code: seq<byte>, patches: seq<Patch>, walk: seq<Visit>) {
    (forall k :: 0 <= k < |patches| ==>
       patches[k].at < |walk| && HasTarget(code, walk[patches[k].at]) &&
       Target(code, walk[patches[k].at]) == patches[k].target) &&
    forall j :: 0 <= j < |walk| && HasTarget(code, walk[j]) ==>
      exists k :: 0 <= k < |patches| && patches[k].at == j
  }

  /** The depth that the pass uses is the one of the walk. */
  lemma DepthAgrees(code: seq<byte>, pool: seq<Value>, s: Scan, walk: seq<Visit>, v: Visit)
    requires Reached(code, pool, s, walk) && v.at == s.offset
    ensures DepthIs(code, pool, walk, v) <==> v.depth == DepthAt(s)
  {
    hide Leads, Passes, TargetsKnown;
  }

  lemma DepthsNext(code: seq<byte>, depths: map<int, int>, walk: seq<Visit>, v: Visit, t: int)
    requires DepthsKnown(code, depths, walk) && forall o :: Leads(code, v, o) <==> o == t
    ensures DepthsKnown(code, Recorded(depths, t, v.depth), walk + [v])
  {
    hide Leads;
    var after, w := Recorded(depths, t, v.depth), walk + [v];
    assert Leads(code, w[|walk|], t);
    forall o | o in after ensures exists j :: 0 <= j < |w| && Leads(code, w[j], o) && w[j].depth == after[o] {
      if o in depths && after[o] == depths[o] {
        var j :| 0 <= j < |walk| && Leads(code, walk[j], o) && walk[j].depth == depths[o];
        assert w[j] == walk[j];
      }
    }
  }

  lemma DepthsSame(code: seq<byte>, depths: map<int, int>, walk: seq<Visit>, v: Visit)
    requires DepthsKnown(code, depths, walk) && forall o :: !Leads(code, v, o)
    ensures DepthsKnown(code, depths, walk + [v])
  {
    hide Leads;
    var w := walk + [v];
    forall o | o in depths ensures exists j :: 0 <= j < |w| && Leads(code, w[j], o) && w[j].depth == depths[o] {
      var j :| 0 <= j < |walk| && Leads(code, walk[j], o) && walk[j].depth == depths[o];
      assert w[j] == walk[j];
    }
  }

  lemma TargetsNext(code: seq<byte>, patches: seq<Patch>, walk: seq<Visit>, v: Visit)
    requires TargetsKnown(code, patches, walk)
    ensures TargetsKnown(code, patches + (if HasTarget(code, v) then [Patch(|walk|, Target(code, v))] else []),
                         walk + [v])
  {
    hide Target, JUMPING, RANGE_NEXT_FAST;
    var after := patches + (if HasTarget(code, v) then [Patch(|walk|, Target(code, v))] else []);
    var w := walk + [v];
    forall j | 0 <= j < |w| && HasTarget(code, w[j]) ensures exists k :: 0 <= k < |after| && after[k].at == j {
      if j < |walk| {
        var k :| 0 <= k < |patches| && patches[k].at == j;
        assert after[k].at == j;
      } else {
        assert after[|patches|].at == j;
      }
    }
  }

  lemma VisitedNext(walk: seq<Visit>, v: Visit)
    ensures forall o :: Visited(walk + [v], o) <==> Visited(walk, o) || o == v.at
  {
    var w := walk + [v];
    forall o ensures Visited(w, o) <==> Visited(walk, o) || o == v.at {
      if Visited(walk, o) { var k :| 0 <= k < |walk| && walk[k].at == o; assert w[k].at == o; }
      if o == v.at { assert w[|walk|].at == o; }
    }
  }

  lemma ReachedNext(code: seq<byte>, pool: seq<Value>, s: Scan, walk: seq<Visit>, t: Scan)
    requires Reached(code, pool, s, walk) && s.offset < |code| && Turned(code, s, t)
    requires Passes(code, pool, Visit(s.offset, DepthAt(s)))
    ensures Reached(code, pool, t, walk + [Visit(s.offset, DepthAt(s))])
  {
    var v := Visit(s.offset, DepthAt(s));
    VisitedNext(walk, v);
    TargetsNext(code, s.patches, walk, v);
    DepthsAfter(code, s.depths, walk, v);
    PassesNext(code, pool, walk, v);
    hide Leads, Length, HasTarget, RANGE_NEXT_FAST, AllPass, Next, DepthAt, DepthsKnown, TargetsKnown, Visited, Passes,
         Target, JUMPING, KNOWN, Recorded, After;
  }

  lemma PassesNext(code: seq<byte>, pool: seq<Value>, walk: seq<Visit>, v: Visit)
    requires AllPass(code, pool, walk) && Passes(code, pool, v)
    ensures AllPass(code, pool, walk + [v])
    ensures Next(code, pool, walk + [v]) == Visit(v.at + Length(code[v.at]), After(code, v))
  {
    hide After, Length, KNOWN;
  }

  lemma DepthsAfter(code: seq<byte>, depths: map<int, int>, walk: seq<Visit>, v: Visit)
    requires DepthsKnown(code, depths, walk) && v.at < |code| && v.at + Length(code[v.at]) <= |code|
    ensures code[v.at] in JUMPING ==>
              HasTarget(code, v) && DepthsKnown(code, Recorded(depths, Target(code, v), v.depth), walk + [v])
    ensures code[v.at] !in JUMPING ==> DepthsKnown(code, depths, walk + [v])
  {
    hide DepthsKnown, Target, Recorded;
    if code[v.at] in JUMPING { DepthsNext(code, depths, walk, v, Target(code, v)); }
    else { DepthsSame(code, depths, walk, v); }
  }

  lemma WalkNext(code: seq<byte>, pool: seq<Value>, walk: seq<Visit>, v: Visit)
    requires IsWalk(code, pool, walk) && Follows(code, pool, walk, v) && Passes(code, pool, v)
    ensures IsWalk(code, pool, walk + [v])
  {
    hide Follows, Passes;
    var w := walk + [v];
    forall k | 0 <= k < |w| ensures Follows(code, pool, w[..k], w[k]) {
      if k < |walk| { assert w[..k] == walk[..k]; } else { assert w[..k] == walk; }
    }
  }

  lemma {:induction false} PatchesExactly(ir: seq<Ir>, patches: seq<Patch>, index: map<int, nat>)
    ensures PatchIr(ir, patches, index).Some? <==>
            forall k :: 0 <= k < |patches| ==> patches[k].target in index && patches[k].at < |ir|
    decreases |patches|
  {
    if patches != [] { PatchesExactly(ir, patches[..|patches| - 1], index); }
  }

  /** RETURN ends the pass exactly where it ends a legal walk. */
  lemma FinishMeans(code: seq<byte>, pool: seq<Value>, s: Scan, walk: seq<Visit>)
    requires Reached(code, pool, s, walk) && IsWalk(code, pool, walk) && s.offset < |code| && code[s.offset] == RETURN
    ensures Finish(code, s).Some? <==> Legal(code, pool, walk, Visit(s.offset, DepthAt(s)))
  {
    var v := Visit(s.offset, DepthAt(s));
    DepthAgrees(code, pool, s, walk, v);
    var index := s.index[s.offset := |s.ir|][|code| := |s.ir| + 1];
    PatchesExactly(s.ir + [Ir(IrReturn, 0, 0)], s.patches, index);
    hide PatchIr, DepthAt, Passes, IsWalk, DepthIs, HasTarget, Target, DepthsKnown;
    forall o ensures o in index <==> Visited(walk, o) || o == v.at || o == |code| {}
    hide Visited;
  }

  /** From where the pass is on, it finishes exactly when the walk can be completed
      to a legal one. */
  lemma {:induction false} LowerLegal(code: seq<byte>, pool: seq<Value>, s: Scan, walk: seq<Visit>)
    returns (full: seq<Visit>, last: Visit)
    requires Reached(code, pool, s, walk) && IsWalk(code, pool, walk) && LowerFrom(code, pool, s).Some?
    ensures Legal(code, pool, full, last)
    decreases |code| - s.offset
  {
    hide Reached, IsWalk, Turn, Finish, Legal, Turned, Passes, DepthAt, DepthIs;
    FromTurn(code, pool, s);
    var v := Visit(s.offset, DepthAt(s));
    if code[s.offset] == RETURN {
      FinishMeans(code, pool, s, walk);
      full, last := walk, v;
    } else {
      TurnMeans(code, pool, s);
      var t := Turn(code, pool, s).value;
      ReachedNext(code, pool, s, walk, t);
      ReachedFollows(code, pool, s, walk);
      WalkNext(code, pool, walk, v);
      full, last := LowerLegal(code, pool, t, walk + [v]);
    }
  }

  lemma ReachedFollows(code: seq<byte>, pool: seq<Value>, s: Scan, walk: seq<Visit>)
    requires Reached(code, pool, s, walk)
    ensures forall v: Visit :: v.at == s.offset ==> (Follows(code, pool, walk, v) <==> v.depth == DepthAt(s))
    ensures forall v: Visit :: Follows(code, pool, walk, v) ==> v.at == s.offset
  {
    forall v: Visit | v.at == s.offset ensures Follows(code, pool, walk, v) <==> v.depth == DepthAt(s) {
      DepthAgrees(code, pool, s, walk, v);
    }
  }

  lemma {:induction false} LegalLowers(code: seq<byte>, pool: seq<Value>, s: Scan, walk: seq<Visit>, last: Visit, k: nat)
    requires Legal(code, pool, walk, last) && k <= |walk| && Reached(code, pool, s, walk[..k])
    ensures LowerFrom(code, pool, s).Some?
    decreases |walk| - k
  {
    hide Reached, Turn, Finish, Turned, Passes, DepthAt, DepthIs, KNOWN, Follows;
    var v := if k < |walk| then walk[k] else last;
    assert walk[..|walk|] == walk;
    ReachedFollows(code, pool, s, walk[..k]);
    assert Follows(code, pool, walk[..k], v);
    assert v == Visit(s.offset, DepthAt(s));
    if k < |walk| {
      PassedOn(code, pool, walk[k]);
      FromTurn(code, pool, s);
      TurnMeans(code, pool, s);
      var t := Turn(code, pool, s).value;
      ReachedNext(code, pool, s, walk[..k], t);
      assert walk[..k + 1] == walk[..k] + [v];
      TurnedOn(code, s, t);
      LegalLowers(code, pool, t, walk, last, k + 1);
    } else {
      FromTurn(code, pool, s);
      FinishMeans(code, pool, s, walk);
    }
  }

  lemma PassedOn(code: seq<byte>, pool: seq<Value>, v: Visit)
    requires Passes(code, pool, v)
    ensures v.at < |code| && code[v.at] != RETURN
  {
  }

  lemma TurnedOn(code: seq<byte>, s: Scan, t: Scan)
    requires Turned(code, s, t)
    ensures t.offset > s.offset
  {
    hide HasTarget, Target, JUMPING, After;
  }

  /** Lowering accepts code exactly when there is a legal walk over it. */
  lemma AcceptedExactly(code: seq<byte>, pool: seq<Value>)
    ensures Lower(code, pool).Some? <==> exists walk: seq<Visit>, last: Visit :: Legal(code, pool, walk, last)
  {
    hide LowerFrom, Legal;
    NothingReached(code, pool);
    if Lower(code, pool).Some? {
      var walk, last := LowerLegal(code, pool, START, []);
    }
    if walk: seq<Visit>, last: Visit :| Legal(code, pool, walk, last) {
      assert walk[..0] == [];
      LegalLowers(code, pool, START, walk, last, 0);
    }
  }

  lemma NothingReached(code: seq<byte>, pool: seq<Value>)
    ensures Reached(code, pool, START, []) && IsWalk(code, pool, [])
  {
  }
}
