/** The loops that write and read a constant pool. */
module PoolCodec {
  import opened Options
  import opened Machine
  import opened ConstantPools

  method WriteCP(es: seq<Entry>) returns (r: Option<seq<byte>>)
    requires Paired(es)
    ensures r == PoolBytes(es)
  {
    hide EntryBytes, BigEndian, Fits;
    var out := BigEndian((|es| + 1) % U16, 2);
    var i := 0;
    while i < |es|
      invariant 0 <= i <= |es| && Paired(es[i..])
      invariant PoolBytes(es) == match EntriesBytes(es[i..]) { case None => None case Some(rest) => Some(out + rest) }
    {
      var rest := es[i..];
      assert rest[0] == es[i] && Tail(rest) == es[i + |Whole(es[i])|..];
      var b := EntryBytes(es[i]);
      if b.None? { return None; }
      WrittenOn(out, b.value, EntriesBytes(Tail(rest)));
      out := out + b.value;
      i := i + if Wide(es[i]) then 2 else 1;
    }
    assert es[i..] == [] && out + [] == out;
    return Some(out);
  }

  lemma WrittenOn(out: seq<byte>, b: seq<byte>, rest: Option<seq<byte>>)
    ensures rest.Some? ==> out + (b + rest.value) == (out + b) + rest.value
  {
  }

  /** What the loop has read so far, followed by the rest. */
  function ReadOn(before: seq<Entry>, s: seq<byte>, pos: nat, slots: nat): Option<Read<seq<Entry>>> {
    match ReadEntries(s, pos, slots)
    case None => None
    case Some(rest) => Some(Read(before + rest.value, rest.next))
  }

  lemma ReadOneMore(before: seq<Entry>, s: seq<byte>, pos: nat, slots: nat)
    requires slots > 0 && ReadEntry(s, pos).Some?
    ensures var e := ReadEntry(s, pos).value;
            var here := if slots > 1 then Whole(e.value) else [e.value];
            ReadOn(before, s, pos, slots) == ReadOn(before + here, s, e.next, slots - |here|)
  {
    var e := ReadEntry(s, pos).value;
    var here := if slots > 1 then Whole(e.value) else [e.value];
    var rest := ReadEntries(s, e.next, slots - |here|);
    if rest.Some? { assert before + (here + rest.value.value) == (before + here) + rest.value.value; }
  }

  method ReadCP(s: seq<byte>, pos: nat) returns (r: Option<Read<seq<Entry>>>)
    ensures r == ReadPool(s, pos)
  {
    hide ReadEntry, BytesValue;
    var n := ReadNumber(s, pos, 2);
    if n.None? { return None; }
    var count := n.value.value;
    var entries := Gaps(if count == 0 then 65535 else count - 1);
    var i, at := 1, n.value.next;
    assert count > 0 ==> ReadPool(s, pos) == ReadOn(entries[..0], s, at, count - 1) by {
      assert entries[..0] == [];
      ReadOnNothing(s, at, if count > 0 then count - 1 else 0);
    }
    while i < count
      invariant 1 <= i && (count > 0 ==> i <= count) && |entries| == (if count == 0 then 65535 else count - 1)
      invariant forall k :: i - 1 <= k < |entries| ==> entries[k] == Gap
      invariant count == 0 ==> entries == Gaps(65535) && at == n.value.next
      invariant count > 0 ==> ReadPool(s, pos) == ReadOn(entries[..i - 1], s, at, count - i)
    {
      var e := ReadEntry(s, at);
      if e.None? { return None; }
      ReadOneMore(entries[..i - 1], s, at, count - i);
      ghost var before, was := entries[..i - 1], i;
      entries := entries[i - 1 := e.value.value];
      if Wide(e.value.value) && i < count - 1 { i := i + 1; }
      i := i + 1;
      at := e.value.next;
      assert entries[..i - 1] == before + if count - was > 1 then Whole(e.value.value) else [e.value.value];
    }
    if count > 0 { assert entries[..i - 1] + [] == entries; }
    return Some(Read(entries, at));
  }

  lemma ReadOnNothing(s: seq<byte>, pos: nat, slots: nat)
    ensures ReadOn([], s, pos, slots) == ReadEntries(s, pos, slots)
  {
    var r := ReadEntries(s, pos, slots);
    if r.Some? { assert [] + r.value.value == r.value.value; }
  }
}
