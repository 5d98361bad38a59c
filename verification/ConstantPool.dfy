/** The constant pool of a class file: its bytes, and the builder that hands
    out indices. Sections 4.4 and 4.4.5 of the Java Virtual Machine
    Specification: a long or a double takes two indices. */
module ConstantPools {
  import opened Options
  import opened Machine
  import opened Spelling

  /** Strings are their bytes, floats their bits. */
  type Text = seq<byte>

  const U16: nat := 0x1_0000
  const LAST_INDEX: nat := 65534

  type CpIndex = i: nat | i < U16 witness 0

  /** Gap is the second index of a wide entry. Names and texts are referred to
      by index. */
  datatype Entry =
    | Gap
    | Utf8(s: Text)
    | Integer(i: int)
    | Single(bits: nat)
    | Long(l: int)
    | Double(bits: nat)
    | ClassName(name: nat)
    | Str(text: nat)

  predicate Wide(e: Entry) { e.Long? || e.Double? }

  /** An entry and its second index. */
  function Whole(e: Entry): seq<Entry> { if Wide(e) then [e, Gap] else [e] }

  /** The value is within the width of its field. */
  predicate Fits(e: Entry) {
    match e
    case Gap => true
    case Utf8(_) => true
    case Integer(i) => -0x8000_0000 <= i < 0x8000_0000
    case Single(bits) => bits < 0x1_0000_0000
    case Long(l) => -TWO_63 <= l < TWO_63
    case Double(bits) => bits < TWO_64
    case ClassName(name) => name < U16
    case Str(text) => text < U16
  }

  /** A gap after every wide entry, and nowhere else. */
  predicate Paired(es: seq<Entry>) {
    es == [] ||
    (es[0] != Gap && Fits(es[0]) &&
     if Wide(es[0]) then |es| >= 2 && es[1] == Gap && Paired(es[2..]) else Paired(es[1..]))
  }

  /** What follows the first entry. */
  function Tail(es: seq<Entry>): (rest: seq<Entry>)
    requires Paired(es) && es != []
    ensures Paired(rest) && es == Whole(es[0]) + rest
  {
    if Wide(es[0]) then es[2..] else es[1..]
  }

  // ------------------------------------------------------------------- bytes

  function Power(n: nat): (p: nat)
    ensures p > 0
  {
    if n == 0 then 1 else 256 * Power(n - 1)
  }

  function BigEndian(v: nat, n: nat): (s: seq<byte>)
    ensures |s| == n
  {
    if n == 0 then [] else BigEndian(v / 256, n - 1) + [v % 256]
  }

  function BytesValue(s: seq<byte>): nat {
    if s == [] then 0 else 256 * BytesValue(s[..|s| - 1]) + s[|s| - 1]
  }

  lemma {:induction false} NumberWritten(v: nat, n: nat)
    requires v < Power(n)
    ensures BytesValue(BigEndian(v, n)) == v
  {
    if n > 0 {
      NumberWritten(v / 256, n - 1);
      assert BigEndian(v, n)[..n - 1] == BigEndian(v / 256, n - 1);
    }
  }

  lemma Powers()
    ensures Power(1) == 256 && Power(2) == U16 && Power(4) == 0x1_0000_0000 && Power(8) == TWO_64
  {
    assert Power(3) == 0x100_0000;
    assert Power(5) == 0x100_0000_0000;
    assert Power(6) == 0x1_0000_0000_0000;
  }

  /** Two's complement in n bytes, and back. */
  function Unsigned(v: int, n: nat): (u: int)
    ensures 2 * v + Power(n) >= 0 && 2 * v < Power(n) ==> 0 <= u < Power(n)
  {
    if v < 0 then v + Power(n) else v
  }

  function Signed(u: nat, n: nat): int { if 2 * u < Power(n) then u else u - Power(n) }

  /** The tag and the bytes of an entry; too long a string cannot be written. */
  function EntryBytes(e: Entry): (r: Option<seq<byte>>)
    requires e != Gap && Fits(e)
  {
    Powers();
    match e
    case Utf8(s) => if |s| < U16 then Some([1] + BigEndian(|s|, 2) + s) else None
    case Integer(i) => Some([3] + BigEndian(Unsigned(i, 4), 4))
    case Single(bits) => Some([4] + BigEndian(bits, 4))
    case Long(l) => Some([5] + BigEndian(Unsigned(l, 8), 8))
    case Double(bits) => Some([6] + BigEndian(bits, 8))
    case ClassName(name) => Some([7] + BigEndian(name, 2))
    case Str(text) => Some([8] + BigEndian(text, 2))
  }

  function EntriesBytes(es: seq<Entry>): (r: Option<seq<byte>>)
    requires Paired(es)
    decreases |es|
  {
    if es == [] then Some([])
    else
      match EntryBytes(es[0])
      case None => None
      case Some(b) =>
        match EntriesBytes(Tail(es))
        case None => None
        case Some(rest) => Some(b + rest)
  }

  /** The pool in a file. The count wraps. */
  function PoolBytes(es: seq<Entry>): Option<seq<byte>>
    requires Paired(es)
  {
    match EntriesBytes(es)
    case None => None
    case Some(b) => Some(BigEndian((|es| + 1) % U16, 2) + b)
  }

  // ----------------------------------------------------------------- reading

  datatype Read<T> = Read(value: T, next: nat)

  function ReadBytes(s: seq<byte>, pos: nat, n: nat): (r: Option<Read<seq<byte>>>)
    ensures r.Some? ==> pos + n <= |s| && r.value == Read(s[pos..pos + n], pos + n)
  {
    if pos + n <= |s| then Some(Read(s[pos..pos + n], pos + n)) else None
  }

  function ReadNumber(s: seq<byte>, pos: nat, n: nat): (r: Option<Read<nat>>)
    ensures r.Some? ==> r.value.next == pos + n <= |s|
  {
    match ReadBytes(s, pos, n)
    case None => None
    case Some(b) => Some(Read(BytesValue(b.value), b.next))
  }

  function ReadEntry(s: seq<byte>, pos: nat): (r: Option<Read<Entry>>)
    ensures r.Some? ==> pos < r.value.next <= |s|
  {
    if pos >= |s| then None
    else if s[pos] == 1 then
      match ReadNumber(s, pos + 1, 2)
      case None => None
      case Some(n) =>
        (match ReadBytes(s, n.next, n.value)
         case None => None
         case Some(b) => Some(Read(Utf8(b.value), b.next)))
    else if s[pos] == 5 || s[pos] == 6 then
      match ReadNumber(s, pos + 1, 8)
      case None => None
      case Some(n) => Some(Read(if s[pos] == 5 then Long(Signed(n.value, 8)) else Double(n.value), n.next))
    else if s[pos] == 3 || s[pos] == 4 then
      match ReadNumber(s, pos + 1, 4)
      case None => None
      case Some(n) => Some(Read(if s[pos] == 3 then Integer(Signed(n.value, 4)) else Single(n.value), n.next))
    else if s[pos] == 7 || s[pos] == 8 then
      match ReadNumber(s, pos + 1, 2)
      case None => None
      case Some(n) => Some(Read(if s[pos] == 7 then ClassName(n.value) else Str(n.value), n.next))
    else None
  }

  /** The next `slots` indices. A wide entry takes two, but for one at the end. */
  function ReadEntries(s: seq<byte>, pos: nat, slots: nat): (r: Option<Read<seq<Entry>>>)
    ensures r.Some? ==> |r.value.value| == slots
    decreases slots
  {
    if slots == 0 then Some(Read([], pos))
    else
      match ReadEntry(s, pos)
      case None => None
      case Some(e) =>
        var here := if slots > 1 then Whole(e.value) else [e.value];
        match ReadEntries(s, e.next, slots - |here|)
        case None => None
        case Some(rest) => Some(Read(here + rest.value, rest.next))
  }

  function Gaps(n: nat): (es: seq<Entry>)
    ensures |es| == n && forall k :: 0 <= k < n ==> es[k] == Gap
  {
    if n == 0 then [] else [Gap] + Gaps(n - 1)
  }

  /** A count of 0 wraps to 65535 blank entries, of which none is read. */
  function ReadPool(s: seq<byte>, pos: nat): (r: Option<Read<seq<Entry>>>)
  {
    match ReadNumber(s, pos, 2)
    case None => None
    case Some(n) => if n.value == 0 then Some(Read(Gaps(65535), n.next)) else ReadEntries(s, n.next, n.value - 1)
  }

  lemma NumberRead(s: seq<byte>, pos: nat, tag: byte, v: nat, n: nat)
    requires v < Power(n) && At(s, pos, [tag] + BigEndian(v, n))
    ensures pos < |s| && s[pos] == tag
    ensures ReadNumber(s, pos + 1, n) == Some(Read(v, pos + 1 + n))
  {
    hide BigEndian;
    AtJoined(s, pos, [tag], BigEndian(v, n));
    assert s[pos] == s[pos..pos + 1][0];
    NumberWritten(v, n);
  }

  lemma EntryRead(s: seq<byte>, pos: nat, e: Entry)
    requires e != Gap && Fits(e) && EntryBytes(e).Some? && At(s, pos, EntryBytes(e).value)
    ensures ReadEntry(s, pos) == Some(Read(e, pos + |EntryBytes(e).value|))
  {
    hide BigEndian, BytesValue, Power, At;
    Powers();
    match e
    case Utf8(t) =>
      AtJoined(s, pos, [1] + BigEndian(|t|, 2), t);
      NumberRead(s, pos, 1, |t|, 2);
      TextRead(s, pos + 3, t);
    case Integer(i) => NumberRead(s, pos, 3, Unsigned(i, 4), 4);
    case Single(bits) => NumberRead(s, pos, 4, bits, 4);
    case Long(l) => NumberRead(s, pos, 5, Unsigned(l, 8), 8);
    case Double(bits) => NumberRead(s, pos, 6, bits, 8);
    case ClassName(name) => NumberRead(s, pos, 7, name, 2);
    case Str(text) => NumberRead(s, pos, 8, text, 2);
  }

  lemma TextRead(s: seq<byte>, pos: nat, t: Text)
    requires At(s, pos, t)
    ensures ReadBytes(s, pos, |t|) == Some(Read(t, pos + |t|))
  {
  }

  lemma {:induction false} EntriesRead(s: seq<byte>, pos: nat, es: seq<Entry>)
    requires Paired(es) && EntriesBytes(es).Some? && At(s, pos, EntriesBytes(es).value)
    ensures ReadEntries(s, pos, |es|) == Some(Read(es, pos + |EntriesBytes(es).value|))
    decreases |es|
  {
    hide EntryBytes, ReadEntry, At, Fits, Tail;
    if es != [] {
      var rest := Tail(es);
      var b := EntryBytes(es[0]).value;
      AtJoined(s, pos, b, EntriesBytes(rest).value);
      EntryRead(s, pos, es[0]);
      EntriesRead(s, pos + |b|, rest);
    }
  }

  /** Reading a written pool gives the same entries at the same indices, gaps
      included, and stops right after it: exactly when the pool has at most
      65534 entries. */
  lemma PoolRoundTrip(s: seq<byte>, pos: nat, es: seq<Entry>)
    requires Paired(es) && PoolBytes(es).Some? && At(s, pos, PoolBytes(es).value)
    ensures ReadPool(s, pos) == Some(Read(es, pos + |PoolBytes(es).value|)) <==> |es| <= LAST_INDEX
  {
    hide EntriesBytes, ReadEntries, BytesValue, BigEndian, At;
    var count := (|es| + 1) % U16;
    Powers();
    AtJoined(s, pos, BigEndian(count, 2), EntriesBytes(es).value);
    NumberWritten(count, 2);
    TextRead(s, pos, BigEndian(count, 2));
    if |es| <= LAST_INDEX {
      EntriesRead(s, pos + 2, es);
    } else if |es| == 65535 {
      assert es[0] != Gap;
    }
  }

  /** A pool is written exactly when every string fits a 16-bit length. */
  lemma {:induction false} WrittenExactly(es: seq<Entry>)
    requires Paired(es)
    ensures PoolBytes(es).Some? <==> forall k :: 0 <= k < |es| && es[k].Utf8? ==> |es[k].s| < U16
    decreases |es|
  {
    hide BigEndian, Fits;
    if es != [] {
      var rest := Tail(es);
      var w := |es| - |rest|;
      WrittenExactly(rest);
      assert forall k :: 0 <= k < |rest| ==> rest[k] == es[k + w];
      assert forall k :: w <= k < |es| ==> es[k] == rest[k - w];
    }
  }
}
