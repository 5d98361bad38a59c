/** Line tables (section 4.7.12 of the Java Virtual Machine Specification): one
    entry per run of equal lines, with 16-bit offsets, lines and count. */
module LineTables {
  const LIMIT: nat := 0x1_0000

  datatype LineEntry = LineEntry(offset: nat, line: nat)

  /** A run of equal lines begins at k. */
  predicate Begins(lines: seq<nat>, k: nat)
    requires k < |lines|
  {
    k == 0 || lines[k] != lines[k - 1]
  }

  /** The runs that begin at k or later. */
  function Runs(lines: seq<nat>, k: nat): (r: seq<LineEntry>)
    decreases |lines| - k
  {
    if k >= |lines| then []
    else if Begins(lines, k) then [LineEntry(k, lines[k])] + Runs(lines, k + 1)
    else Runs(lines, k + 1)
  }

  method CompactLines(lines: seq<nat>) returns (entries: seq<LineEntry>)
    ensures entries == Runs(lines, 0) && Tells(lines, entries)
  {
    RunsTell(lines);
    hide Tells;
    entries := [];
    var lastLine: int := -1;
    for offset := 0 to |lines|
      invariant Runs(lines, 0) == entries + Runs(lines, offset)
      invariant offset > 0 ==> lastLine == lines[offset - 1]
    {
      if offset == 0 || lines[offset] != lastLine {
        entries := entries + [LineEntry(offset, lines[offset])];
        lastLine := lines[offset];
      }
    }
  }

  /** The entries as they are in the file: every number wraps. */
  function Wire(entries: seq<LineEntry>): (r: seq<LineEntry>)
    ensures |r| == |entries| % LIMIT
    ensures forall i :: 0 <= i < |r| ==> r[i] == LineEntry(entries[i].offset % LIMIT, entries[i].line % LIMIT)
  {
    seq(|entries| % LIMIT, i requires 0 <= i < |entries| =>
      LineEntry(entries[i].offset % LIMIT, entries[i].line % LIMIT))
  }

  /** How many entries from i on are for this offset. */
  function Here(entries: seq<LineEntry>, i: nat, offset: nat): (n: nat)
    requires i <= |entries|
    ensures i + n <= |entries|
    decreases |entries| - i
  {
    if i < |entries| && entries[i].offset == offset then 1 + Here(entries, i + 1, offset) else 0
  }

  /** The lines of the offsets from `offset` on, when the entries before i have
      been passed and the line is `current`. */
  function Expand(entries: seq<LineEntry>, i: nat, offset: nat, current: nat, codeLength: nat): (r: seq<nat>)
    requires i <= |entries|
    ensures offset <= codeLength ==> |r| == codeLength - offset
    decreases codeLength - offset
  {
    if offset >= codeLength then []
    else
      var n := Here(entries, i, offset);
      var line := if n == 0 then current else entries[i + n - 1].line;
      [line] + Expand(entries, i + n, offset + 1, line, codeLength)
  }

  method DecodeLines(entries: seq<LineEntry>, codeLength: nat) returns (lines: seq<nat>)
    ensures lines == Expand(entries, 0, 0, 0, codeLength)
  {
    hide Expand;
    lines := [];
    var currentLine, entryIndex := 0, 0;
    for offset := 0 to codeLength
      invariant entryIndex <= |entries| && |lines| == offset
      invariant Expand(entries, 0, 0, 0, codeLength)
             == lines + Expand(entries, entryIndex, offset, currentLine, codeLength)
    {
      ghost var i, was := entryIndex, currentLine;
      while entryIndex < |entries| && entries[entryIndex].offset == offset
        invariant i <= entryIndex <= |entries|
        invariant Here(entries, i, offset) == entryIndex - i + Here(entries, entryIndex, offset)
        invariant currentLine == if entryIndex == i then was else entries[entryIndex - 1].line
      {
        currentLine := entries[entryIndex].line;
        entryIndex := entryIndex + 1;
      }
      ExpandStep(entries, i, offset, was, codeLength, lines);
      lines := lines + [currentLine];
    }
    ExpandEnds(entries, entryIndex, currentLine, codeLength);
  }

  lemma ExpandStep(entries: seq<LineEntry>, i: nat, offset: nat, current: nat, codeLength: nat, done: seq<nat>)
    requires i <= |entries| && offset < codeLength
    ensures var n := Here(entries, i, offset);
            var line := if n == 0 then current else entries[i + n - 1].line;
            done + Expand(entries, i, offset, current, codeLength)
            == done + [line] + Expand(entries, i + n, offset + 1, line, codeLength)
  {
  }

  lemma ExpandEnds(entries: seq<LineEntry>, i: nat, current: nat, codeLength: nat)
    requires i <= |entries|
    ensures Expand(entries, i, codeLength, current, codeLength) == []
  {
  }

  /** Every line and the offset of every run is below 65536, and so is the
      number of runs. */
  predicate LinesFit(lines: seq<nat>) {
    |Runs(lines, 0)| < LIMIT &&
    (forall k :: 0 <= k < |lines| ==> lines[k] < LIMIT) &&
    (forall k :: LIMIT <= k < |lines| ==> !Begins(lines, k))
  }

  /** The entry of a run that begins at k or later. */
  predicate OfRun(lines: seq<nat>, k: nat, e: LineEntry) {
    k <= e.offset < |lines| && Begins(lines, e.offset) && e.line == lines[e.offset]
  }

  lemma {:induction false} RunsLater(lines: seq<nat>, k: nat)
    ensures forall i :: 0 <= i < |Runs(lines, k)| ==> OfRun(lines, k, Runs(lines, k)[i])
    decreases |lines| - k
  {
    if k < |lines| { RunsLater(lines, k + 1); }
  }

  lemma {:induction false} RunsRead(lines: seq<nat>, entries: seq<LineEntry>, i: nat, k: nat, current: nat)
    requires k <= |lines| && (k > 0 ==> current == lines[k - 1])
    requires i <= |entries| && entries[i..] == Runs(lines, k)
    ensures Expand(entries, i, k, current, |lines|) == lines[k..]
    decreases |lines| - k
  {
    if k < |lines| {
      NextRun(lines, entries, i, k);
      RunsRead(lines, entries, i + Here(entries, i, k), k + 1, lines[k]);
      assert lines[k..] == [lines[k]] + lines[k + 1..];
    }
  }

  /** Exactly the entry of the run that begins at k, if one does, is for k. */
  lemma NextRun(lines: seq<nat>, entries: seq<LineEntry>, i: nat, k: nat)
    requires k < |lines| && i <= |entries| && entries[i..] == Runs(lines, k)
    ensures Here(entries, i, k) == if Begins(lines, k) then 1 else 0
    ensures Begins(lines, k) ==> entries[i].line == lines[k]
    ensures entries[i + Here(entries, i, k)..] == Runs(lines, k + 1)
  {
    hide Begins;
    RunsLater(lines, k + 1);
    var rest := Runs(lines, k + 1);
    var n := if Begins(lines, k) then 1 else 0;
    if n == 1 { assert entries[i] == entries[i..][0] == LineEntry(k, lines[k]); }
    assert entries[i + n..] == entries[i..][n..] == rest;
    if rest != [] { assert entries[i + n] == rest[0] && OfRun(lines, k + 1, rest[0]); }
  }

  lemma WireSame(lines: seq<nat>)
    requires LinesFit(lines)
    ensures Wire(Runs(lines, 0)) == Runs(lines, 0)
  {
    var r := Runs(lines, 0);
    hide Runs;
    RunsLater(lines, 0);
    forall i | 0 <= i < |r| ensures Wire(r)[i] == r[i] { assert OfRun(lines, 0, r[i]); }
  }

  /** Expanding the compacted table at the code's length gives the lines back. */
  lemma LinesRoundTrip(lines: seq<nat>)
    requires LinesFit(lines)
    ensures Expand(Wire(Runs(lines, 0)), 0, 0, 0, |lines|) == lines
  {
    hide Runs, Expand, LinesFit;
    WireSame(lines);
    RunsRead(lines, Runs(lines, 0), 0, 0, 0);
  }

  /** The entries tell the lines without repeating any: the first one is for
      offset 0, offsets ascend, every entry has the line of its offset, which
      goes on up to the next one, and neighbours differ in line. */
  ghost predicate Tells(lines: seq<nat>, entries: seq<LineEntry>) {
    (lines != [] <==> entries != []) && (entries != [] ==> entries[0].offset == 0) && Alternate(lines, entries)
  }

  /** Where the run of entry i ends. */
  function End(lines: seq<nat>, entries: seq<LineEntry>, i: nat): nat
    requires i < |entries|
  {
    if i + 1 < |entries| then entries[i + 1].offset else |lines|
  }

  predicate Holds(lines: seq<nat>, from: nat, to: nat, line: nat) {
    from < to <= |lines| && forall k :: from <= k < to ==> lines[k] == line
  }

  /** Every entry has the line of its run, and neighbours differ. */
  ghost predicate Alternate(lines: seq<nat>, entries: seq<LineEntry>) {
    (forall i :: 0 <= i < |entries| ==> Holds(lines, entries[i].offset, End(lines, entries, i), entries[i].line)) &&
    forall i :: 0 <= i < |entries| - 1 ==> entries[i].line != entries[i + 1].line
  }

  /** The runs from k on, where one begins at k, tell the lines from k on. */
  lemma {:induction false} RunsFrom(lines: seq<nat>, k: nat)
    requires k < |lines| && Begins(lines, k)
    ensures var r := Runs(lines, k); r != [] && r[0] == LineEntry(k, lines[k]) && Alternate(lines, r)
    decreases |lines| - k
  {
    hide Begins, Alternate;
    var j := NextBegins(lines, k);
    SkipsRun(lines, k + 1, j);
    if j < |lines| { RunsFrom(lines, j); }
    hide Runs;
    OneRunMore(lines, LineEntry(k, lines[k]), j, Runs(lines, j));
  }

  lemma OneRunMore(lines: seq<nat>, e: LineEntry, j: nat, rest: seq<LineEntry>)
    requires Holds(lines, e.offset, j, e.line) && (rest == [] <==> j == |lines|)
    requires rest != [] ==> rest[0].offset == j && rest[0].line != e.line && Alternate(lines, rest)
    ensures Alternate(lines, [e] + rest)
  {
    hide Holds;
    var r := [e] + rest;
    forall i | 0 <= i < |r| ensures Holds(lines, r[i].offset, End(lines, r, i), r[i].line) {
      if i > 0 { assert r[i] == rest[i - 1] && End(lines, r, i) == End(lines, rest, i - 1); }
    }
    forall i | 0 <= i < |r| - 1 ensures r[i].line != r[i + 1].line {
      if i > 0 { assert r[i] == rest[i - 1] && r[i + 1] == rest[i]; }
    }
  }

  /** The next offset behind k with another line, or the end. */
  lemma NextBegins(lines: seq<nat>, k: nat) returns (j: nat)
    requires k < |lines|
    ensures k < j <= |lines| && (forall i :: k <= i < j ==> lines[i] == lines[k]) && (j < |lines| ==> lines[j] != lines[k])
    ensures (forall i :: k < i < j ==> !Begins(lines, i)) && (j < |lines| ==> Begins(lines, j))
    decreases |lines| - k
  {
    j := k + 1;
    while j < |lines| && lines[j] == lines[k]
      invariant k < j <= |lines| && forall i :: k <= i < j ==> lines[i] == lines[k]
    {
      j := j + 1;
    }
  }

  lemma {:induction false} SkipsRun(lines: seq<nat>, k: nat, j: nat)
    requires k <= j <= |lines| && forall i :: k <= i < j ==> i > 0 && !Begins(lines, i)
    ensures Runs(lines, k) == Runs(lines, j)
    decreases j - k
  {
    if k < j { SkipsRun(lines, k + 1, j); }
  }

  /** The compacted table tells the lines. */
  lemma RunsTell(lines: seq<nat>)
    ensures Tells(lines, Runs(lines, 0))
  {
    if lines != [] { RunsFrom(lines, 0); }
  }
}
