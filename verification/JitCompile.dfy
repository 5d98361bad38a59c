/** lowerBytecode as the program runs it: one loop over byte offsets that
    appends to its tables, then a loop over the recorded jumps. */
module JitCompile {
  import opened Options
  import opened Machine
  import opened JitIr
  import opened JitLower

  lemma {:induction false} PatchFails(ir: seq<Ir>, patches: seq<Patch>, index: map<int, nat>, k: nat)
    requires k <= |patches| && PatchIr(ir, patches[..k], index).None?
    ensures PatchIr(ir, patches, index).None?
    decreases |patches| - k
  {
    if k < |patches| {
      assert patches[..k + 1][..k] == patches[..k];
      PatchFails(ir, patches, index, k + 1);
    } else {
      assert patches[..k] == patches;
    }
  }

  /** The jumps of the finished code, set one after the other. */
  method PatchJumps(code: seq<Ir>, patches: seq<Patch>, index: map<int, nat>) returns (result: Option<seq<Ir>>)
    requires forall k :: 0 <= k < |patches| ==> patches[k].at < |code|
    ensures result == PatchIr(code, patches, index)
    ensures result.Some? <==> forall k :: 0 <= k < |patches| ==> patches[k].target in index
  {
    var ir := code;
    var k := 0;
    while k < |patches|
      invariant 0 <= k <= |patches| && |ir| == |code| && PatchIr(code, patches[..k], index) == Some(ir)
      invariant forall j :: 0 <= j < k ==> patches[j].target in index
    {
      var patch := patches[k];
      assert patches[..k + 1][..k] == patches[..k];
      if patch.target !in index {
        PatchFails(code, patches, index, k + 1);
        return None;
      }
      ir := ir[patch.at := Ir(ir[patch.at].op, index[patch.target] % 65536, ir[patch.at].aux)];
      k := k + 1;
    }
    assert patches[..k] == patches;
    return Some(ir);
  }

  method HasOnlyDeadEpilogue(code: seq<byte>, start: nat) returns (dead: bool)
    requires start <= |code|
    ensures dead == DeadEpilogue(code, start)
    ensures dead <==> forall i :: start <= i < |code| ==> code[i] == NIL || code[i] == RETURN
  {
    var offset := start;
    while offset < |code|
      invariant start <= offset <= |code| && forall i :: start <= i < offset ==> code[i] == NIL || code[i] == RETURN
    {
      if code[offset] != NIL && code[offset] != RETURN { return false; }
      offset := offset + 1;
    }
    return true;
  }

  /** The lowered program, if any. */
  function Program(r: Option<(Lowered, map<int, nat>)>): Option<Lowered> {
    match r
    case Some((p, _)) => Some(p)
    case None => None
  }

  /** CONSTANT. */
  method LowerConstant(code: seq<byte>, pool: seq<Value>, ghost s: Scan, ghost next: Scan, offset: nat, ir: seq<Ir>,
                       constants: seq<Value>, constantIndex: map<string, nat>)
    returns (ok: bool, ir': seq<Ir>, constants': seq<Value>, constantIndex': map<string, nat>)
    requires offset + 3 <= |code| && s.offset == offset && s.ir == ir && s.constants == constants && s.keys == constantIndex
    requires next.constants == constants && next.keys == constantIndex
    ensures LoweredConst(code, pool, s, next) ==
            if ok then Some(next.(ir := ir', constants := constants', keys := constantIndex')) else None
    ensures |ir'| == if ok then |ir| + 1 else |ir|
  {
    hide CacheKey;
    ok, ir', constants', constantIndex' := true, ir, constants, constantIndex;
    var idx := ReadUint16(code, offset + 1);
    if idx >= |pool| { ok := false; return; }
    var key := CacheKey(pool[idx]);
    if key in constantIndex {
      ir' := ir + [Ir(LoadConst, constantIndex[key], 0)];
    } else {
      ir' := ir + [Ir(LoadConst, |constants| % 65536, 0)];
      constantIndex' := constantIndex[key := |constants| % 65536];
      constants' := constants + [pool[idx]];
    }
  }

  /** addMetadata. */
  method AddMetadata(entry: Meta, metadata: seq<Meta>, metadataIndex: map<Meta, nat>)
    returns (i: nat, metadata': seq<Meta>, metadataIndex': map<Meta, nat>)
    ensures if entry in metadataIndex then
              i == metadataIndex[entry] && metadata' == metadata && metadataIndex' == metadataIndex
            else
              i == |metadata| % 65536 && metadata' == metadata + [entry] && metadataIndex' == metadataIndex[entry := i]
  {
    metadata', metadataIndex' := metadata, metadataIndex;
    if entry in metadataIndex { i := metadataIndex[entry]; return; }
    i := |metadata| % 65536;
    metadata' := metadata + [entry];
    metadataIndex' := metadataIndex[entry := i];
  }

  /** RANGE_INIT_FAST. */
  method LowerRangeInit(code: seq<byte>, ghost s: Scan, ghost next: Scan, offset: nat, ir: seq<Ir>, metadata: seq<Meta>,
                        metadataIndex: map<Meta, nat>)
    returns (ir': seq<Ir>, metadata': seq<Meta>, metadataIndex': map<Meta, nat>)
    requires offset + 5 <= |code| && s.offset == offset && s.ir == ir
    requires s.meta == next.meta == metadata && s.metaKeys == next.metaKeys == metadataIndex
    ensures LoweredInit(code, s, next) == next.(ir := ir', meta := metadata', metaKeys := metadataIndex')
    ensures |ir'| == |ir| + 1
  {
    var i;
    var entry := InitMeta(code[offset + 1], code[offset + 2], code[offset + 3], code[offset + 4]);
    i, metadata', metadataIndex' := AddMetadata(entry, metadata, metadataIndex);
    ir' := ir + [Ir(RangeInitFast, i, 0)];
  }

  /** RANGE_NEXT_FAST. */
  method LowerRangeNext(code: seq<byte>, rule: Rule, ghost s: Scan, ghost next: Scan, offset: nat, ir: seq<Ir>,
                        metadata: seq<Meta>, metadataIndex: map<Meta, nat>, patches: seq<Patch>)
    returns (ir': seq<Ir>, metadata': seq<Meta>, metadataIndex': map<Meta, nat>, patches': seq<Patch>)
    requires offset + 7 <= |code| && rule.op == RangeNextFast && rule.size == 7 && s.offset == offset && s.ir == ir
    requires s.meta == next.meta == metadata && s.metaKeys == next.metaKeys == metadataIndex && s.patches == patches
    ensures LoweredNext(code, s, next, rule) ==
            next.(ir := ir', meta := metadata', metaKeys := metadataIndex', patches := patches')
    ensures |ir'| == |ir| + 1 && exists t :: patches' == patches + [Patch(|ir|, t)]
  {
    hide TargetOf;
    var i;
    var entry := NextMeta(code[offset + 1], code[offset + 2], code[offset + 3], code[offset + 4]);
    i, metadata', metadataIndex' := AddMetadata(entry, metadata, metadataIndex);
    ir' := ir + [Ir(RangeNextFast, 0, i)];
    patches' := patches + [Patch(|ir|, TargetOf(code, offset, rule))];
  }

  /** The other jumps, and recordTargetDepth. */
  method LowerJump(code: seq<byte>, rule: Rule, ghost s: Scan, ghost next: Scan, offset: nat, stackDepth: int, ir: seq<Ir>,
                   targetStackDepth: map<int, int>, patches: seq<Patch>)
    returns (ir': seq<Ir>, targetStackDepth': map<int, int>, patches': seq<Patch>)
    requires Jumps(rule.op) && offset + rule.size <= |code| && rule.size >= 3 && s.offset == offset && s.ir == ir
    requires DepthAt(s) == stackDepth && s.depths == targetStackDepth && s.patches == patches
    ensures LoweredJump(code, s, next, rule) == next.(ir := ir', depths := targetStackDepth', patches := patches')
    ensures |ir'| == |ir| + 1 && exists t :: patches' == patches + [Patch(|ir|, t)]
  {
    hide TargetOf, DepthAt;
    targetStackDepth' := targetStackDepth;
    var target := TargetOf(code, offset, rule);
    patches' := patches + [Patch(|ir|, target)];
    ir' := ir + [Ir(rule.op, 0, 0)];
    if target !in targetStackDepth || stackDepth > targetStackDepth[target] {
      targetStackDepth' := targetStackDepth[target := stackDepth];
    }
  }

  /** RETURN: the program, if only dead code follows and every jump leads to an
      instruction. */
  method FinishLowering(code: seq<byte>, ghost s: Scan, offset: nat, stackDepth: int, maxStack: int, ir: seq<Ir>,
                        constants: seq<Value>, metadata: seq<Meta>, offsetToIndex: map<int, nat>, patches: seq<Patch>)
    returns (result: Option<Lowered>)
    requires offset < |code| && s.offset == offset && DepthAt(s) == stackDepth && s.maxStack == maxStack && s.ir == ir
    requires s.constants == constants && s.meta == metadata && s.patches == patches
    requires offsetToIndex == s.index[offset := |ir|] && forall k :: 0 <= k < |patches| ==> patches[k].at < |ir|
    ensures result == Program(Finish(code, s))
  {
    hide DepthAt, PatchIr, DeadEpilogue;
    if stackDepth < 1 { return None; }
    var dead := HasOnlyDeadEpilogue(code, offset + 1);
    if !dead { return None; }
    var patched := PatchJumps(ir + [Ir(IrReturn, 0, 0)], patches, offsetToIndex[|code| := |ir| + 1]);
    if patched.None? { return None; }
    return Some(Lowered(patched.value, constants, metadata, if stackDepth > maxStack then stackDepth else maxStack));
  }

  /** One turn of the pass. */
  lemma FromTurn(code: seq<byte>, pool: seq<Value>, s: Scan)
    requires s.offset < |code|
    ensures LowerFrom(code, pool, s) ==
            if code[s.offset] == RETURN then Finish(code, s)
            else
              match Turn(code, pool, s)
              case None => None
              case Some(t) => if t.offset > s.offset then LowerFrom(code, pool, t) else None
  {
    hide Turn, Finish;
  }

  lemma LowerStarts(code: seq<byte>, pool: seq<Value>)
    ensures Lower(code, pool) == LowerFrom(code, pool, START)
  {
  }

  lemma TurnRejects(code: seq<byte>, pool: seq<Value>, s: Scan)
    requires s.offset < |code|
    ensures var rule := RuleOf(code[s.offset]);
            (rule.None? ==> Turn(code, pool, s) == None) &&
            (rule.Some? && (s.offset + rule.value.size > |code| || DepthAt(s) < rule.value.needs ||
                            DepthAt(s) < ArgcAt(code, s.offset)) ==>
              Turn(code, pool, s) == None)
  {
    hide RuleOf, DepthAt, Moved, LoweredConst, LoweredInit, LoweredNext, LoweredJump, LoweredPlain;
  }

  lemma TurnIs(code: seq<byte>, pool: seq<Value>, s: Scan, rule: Rule)
    requires s.offset < |code| && RuleOf(code[s.offset]) == Some(rule) && s.offset + rule.size <= |code|
    requires DepthAt(s) >= rule.needs && DepthAt(s) >= ArgcAt(code, s.offset)
    ensures var next := Moved(code, s, rule);
            Turn(code, pool, s) ==
            if rule.op == LoadConst then LoweredConst(code, pool, s, next)
            else if rule.op == RangeInitFast then Some(LoweredInit(code, s, next))
            else if rule.op == RangeNextFast then Some(LoweredNext(code, s, next, rule))
            else if Jumps(rule.op) then Some(LoweredJump(code, s, next, rule))
            else Some(LoweredPlain(code, s, next, rule))
  {
    hide RuleOf, LoweredConst, LoweredInit, LoweredNext, LoweredJump, LoweredPlain, Moved, DepthAt;
  }

  lemma MovedTo(code: seq<byte>, s: Scan, rule: Rule, offset: nat, depth: int, maxStack: int, index: map<int, nat>)
    requires s.offset < |code| && offset == s.offset + rule.size
    requires depth == DepthAt(s) + rule.delta - ArgcAt(code, s.offset)
    requires maxStack == (if depth > s.maxStack then depth else s.maxStack) && index == s.index[s.offset := |s.ir|]
    ensures Moved(code, s, rule) == s.(offset := offset, depth := depth, index := index, maxStack := maxStack)
  {
    hide DepthAt, ArgcAt;
  }

  /** The cases of the switch, once offset, depth and index are those of
      `next`. */
  method LowerOne(code: seq<byte>, pool: seq<Value>, ghost s: Scan, rule: Rule, offset: nat, stackDepth: int, ir: seq<Ir>,
                  constants: seq<Value>, metadata: seq<Meta>, constantIndex: map<string, nat>,
                  metadataIndex: map<Meta, nat>, targetStackDepth: map<int, int>, patches: seq<Patch>)
    returns (ok: bool, ir': seq<Ir>, constants': seq<Value>, metadata': seq<Meta>, constantIndex': map<string, nat>,
             metadataIndex': map<Meta, nat>, targetStackDepth': map<int, int>, patches': seq<Patch>)
    requires offset < |code| && RuleOf(code[offset]) == Some(rule) && offset + rule.size <= |code|
    requires s.offset == offset && DepthAt(s) == stackDepth && s.ir == ir && s.constants == constants && s.meta == metadata
    requires s.keys == constantIndex && s.metaKeys == metadataIndex && s.depths == targetStackDepth && s.patches == patches
    requires stackDepth >= rule.needs && stackDepth >= ArgcAt(code, offset)
    requires forall k :: 0 <= k < |patches| ==> patches[k].at < |ir|
    ensures Turn(code, pool, s) ==
            if ok then
              Some(Moved(code, s, rule).(ir := ir', constants := constants', meta := metadata', keys := constantIndex',
                                         metaKeys := metadataIndex', depths := targetStackDepth', patches := patches'))
            else None
    ensures forall k :: 0 <= k < |patches'| ==> patches'[k].at < |ir'|
  {
    hide RuleOf, LoweredConst, LoweredInit, LoweredNext, LoweredJump, DepthAt, Turn, ArgcAt, PlainIr;
    TurnIs(code, pool, s, rule);
    ghost var next := Moved(code, s, rule);
    ok, ir', constants', metadata', constantIndex' := true, ir, constants, metadata, constantIndex;
    metadataIndex', targetStackDepth', patches' := metadataIndex, targetStackDepth, patches;
    if rule.op == LoadConst {
      ok, ir', constants', constantIndex' := LowerConstant(code, pool, s, next, offset, ir, constants, constantIndex);
    } else if rule.op == RangeInitFast {
      ir', metadata', metadataIndex' := LowerRangeInit(code, s, next, offset, ir, metadata, metadataIndex);
    } else if rule.op == RangeNextFast {
      ir', metadata', metadataIndex', patches' :=
        LowerRangeNext(code, rule, s, next, offset, ir, metadata, metadataIndex, patches);
    } else if Jumps(rule.op) {
      ir', targetStackDepth', patches' :=
        LowerJump(code, rule, s, next, offset, stackDepth, ir, targetStackDepth, patches);
    } else {
      ir' := ir + [PlainIr(code, offset, rule)];
    }
  }

  method LowerBytecode(code: seq<byte>, pool: seq<Value>) returns (result: Option<Lowered>)
    ensures result == Program(Lower(code, pool))
  {
    hide LowerFrom, RuleOf, Finish, Turn, PatchIr, DeadEpilogue, Jumps, Moved, Lower;
    var offset, stackDepth, maxStack := 0, 0, 0;
    var ir: seq<Ir>, constants: seq<Value>, metadata: seq<Meta> := [], [], [];
    var constantIndex: map<string, nat>, metadataIndex: map<Meta, nat> := map[], map[];
    var offsetToIndex: map<int, nat>, targetStackDepth: map<int, int> := map[], map[];
    var patches: seq<Patch> := [];
    LowerStarts(code, pool);
    while offset < |code|
      invariant LowerFrom(code, pool, Scan(offset, stackDepth, maxStack, ir, constants, metadata, constantIndex,
                                           metadataIndex, offsetToIndex, targetStackDepth, patches)) == Lower(code, pool)
      invariant forall k :: 0 <= k < |patches| ==> patches[k].at < |ir|
      decreases |code| - offset
    {
      ghost var s := Scan(offset, stackDepth, maxStack, ir, constants, metadata, constantIndex, metadataIndex,
                          offsetToIndex, targetStackDepth, patches);
      FromTurn(code, pool, s);
      TurnRejects(code, pool, s);
      if offset in targetStackDepth && targetStackDepth[offset] > stackDepth { stackDepth := targetStackDepth[offset]; }
      var op := code[offset];
      offsetToIndex := offsetToIndex[offset := |ir|];
      if op == RETURN {
        result := FinishLowering(code, s, offset, stackDepth, maxStack, ir, constants, metadata, offsetToIndex, patches);
        return;
      }
      var found := RuleOf(op);
      if found.None? { return None; }
      var rule := found.value;
      if offset + rule.size > |code| || stackDepth < rule.needs { return None; }
      var argc: nat := if op == RANGE_INIT_FAST then code[offset + 4] else 0;
      if stackDepth < argc { return None; }
      var ok;
      ok, ir, constants, metadata, constantIndex, metadataIndex, targetStackDepth, patches :=
        LowerOne(code, pool, s, rule, offset, stackDepth, ir, constants, metadata, constantIndex, metadataIndex,
                 targetStackDepth, patches);
      if !ok { return None; }
      stackDepth := stackDepth + rule.delta - argc;
      offset := offset + rule.size;
      if stackDepth > maxStack { maxStack := stackDepth; }
      MovedTo(code, s, rule, offset, stackDepth, maxStack, offsetToIndex);
    }
    EmptyFails(code, pool, Scan(offset, stackDepth, maxStack, ir, constants, metadata, constantIndex, metadataIndex,
                                offsetToIndex, targetStackDepth, patches));
    return None;
  }

  lemma EmptyFails(code: seq<byte>, pool: seq<Value>, s: Scan)
    requires s.offset >= |code|
    ensures LowerFrom(code, pool, s) == None
  {
  }
}
