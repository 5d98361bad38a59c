/** The bytes of a class file around its constant pool: methods, attributes with
    their lengths, and the classes; and reading any bytes as a class file. */
module ClassFiles {
  import opened Options
  import opened Machine
  import opened ConstantPools
  import opened PoolBuilders
  import opened Spelling
  import opened LineTables
  import opened ModuleGraphs
  import opened ModuleCodecs
  import opened ModuleReaders
  import opened WireFormats
  import opened Sections

  const U32: nat := 0x1_0000_0000

  // --------------------------------------------------------------- attributes

  /** A name, a length of four bytes, and as many bytes. */
  function Attribute(name: CpIndex, info: seq<byte>): seq<byte> {
    BigEndian(name, 2) + (BigEndian(Cut(|info|, 4), 4) + info)
  }

  function ReadAttribute(s: seq<byte>, pos: nat, es: seq<Entry>): (r: Option<Read<(Text, seq<byte>)>>)
    ensures r.Some? ==> pos < r.value.next <= |s|
  {
    match ReadNumber(s, pos, 2)
    case None => None
    case Some(name) =>
      match ReadNumber(s, name.next, 4)
      case None => None
      case Some(length) =>
        match Utf8At(es, ToIndex(name.value))
        case None => None
        case Some(text) =>
          match ReadBytes(s, length.next, length.value)
          case None => None
          case Some(info) => Some(Read((text, info.value), info.next))
  }

  /** Numbers in front of other bytes. */
  lemma NumberFirst(s: seq<byte>, pos: nat, v: nat, n: nat, rest: seq<byte>)
    requires v < Power(n) && At(s, pos, BigEndian(v, n) + rest)
    ensures ReadNumber(s, pos, n) == Some(Read(v, pos + n)) && At(s, pos + n, rest)
  {
    hide BigEndian, Power, At, ReadNumber;
    AtJoined(s, pos, BigEndian(v, n), rest);
    NumberThere(s, pos, v, n);
  }

  lemma PairFirst(s: seq<byte>, pos: nat, a: nat, b: nat, rest: seq<byte>)
    requires a < U16 && b < U16 && At(s, pos, BigEndian(a, 2) + (BigEndian(b, 2) + rest))
    ensures ReadNumber(s, pos, 2) == Some(Read(a, pos + 2)) && ReadNumber(s, pos + 2, 2) == Some(Read(b, pos + 4))
    ensures At(s, pos + 4, rest)
  {
    hide BigEndian, Power, At, ReadNumber;
    Powers();
    NumberFirst(s, pos, a, 2, BigEndian(b, 2) + rest);
    NumberFirst(s, pos + 2, b, 2, rest);
  }

  lemma BytesFirst(s: seq<byte>, pos: nat, b: seq<byte>, rest: seq<byte>)
    requires At(s, pos, b + rest)
    ensures ReadBytes(s, pos, |b|) == Some(Read(b, pos + |b|)) && At(s, pos + |b|, rest)
  {
    hide At;
    AtJoined(s, pos, b, rest);
    TextRead(s, pos, b);
  }

  lemma AttributeReads(
    s: seq<byte>, pos: nat, name: CpIndex, text: Text, info: seq<byte>, rest: seq<byte>, es: seq<Entry>)
    requires At(s, pos, Attribute(name, info) + rest) && Utf8At(es, name) == Some(text) && |info| < U32
    ensures ReadAttribute(s, pos, es) == Some(Read((text, info), pos + 6 + |info|)) && At(s, pos + 6 + |info|, rest)
  {
    hide BigEndian, Power, At, ReadNumber, Cut, ReadBytes, Utf8At;
    Powers();
    CutFits(|info|, 4);
    var a, b := BigEndian(name, 2), BigEndian(Cut(|info|, 4), 4);
    assert Attribute(name, info) + rest == a + (b + (info + rest));
    NumberFirst(s, pos, name, 2, b + (info + rest));
    NumberFirst(s, pos + 2, Cut(|info|, 4), 4, info + rest);
    BytesFirst(s, pos + 6, info, rest);
  }

  // --------------------------------------------------------------------- code

  /** The code attribute: stack size, locals, code, no exceptions, and the line
      table. */
  function CodeInfo(m: MethodInfo): Option<seq<byte>> {
    match LINES.write(m.lines)
    case None => None
    case Some(lines) =>
      Some(BigEndian(0, 2) + (BigEndian(Cut(m.maxLocals, 2), 2) + (BigEndian(Cut(|m.code|, 4), 4) + (m.code +
           (BigEndian(0, 2) + (BigEndian(1, 2) + Attribute(m.linesName, lines)))))))
  }

  datatype CodePart = CodePart(code: seq<byte>, lines: seq<nat>, maxLocals: nat)

  /** The attributes of code: the last line table counts. */
  function ReadCodeAttributes(s: seq<byte>, pos: nat, n: nat, es: seq<Entry>, codeLength: nat, lines: Option<seq<nat>>)
    : Option<Option<seq<nat>>>
    decreases n
  {
    if n == 0 then Some(lines)
    else
      match ReadAttribute(s, pos, es)
      case None => None
      case Some(a) =>
        if a.value.0 != LINE_NUMBER_TABLE then ReadCodeAttributes(s, a.next, n - 1, es, codeLength, lines)
        else
          match LINES.read(a.value.1, 0)
          case None => None
          case Some(t) => ReadCodeAttributes(s, a.next, n - 1, es, codeLength, Some(Expand(t.value, 0, 0, 0, codeLength)))
  }

  function ReadCodeInfo(s: seq<byte>, es: seq<Entry>): Option<CodePart> {
    match ReadNumber(s, 0, 2)
    case None => None
    case Some(stack) =>
      match ReadNumber(s, stack.next, 2)
      case None => None
      case Some(locals) =>
        match ReadNumber(s, locals.next, 4)
        case None => None
        case Some(length) =>
          match ReadBytes(s, length.next, length.value)
          case None => None
          case Some(code) => ReadCodeEnd(s, code.next, es, code.value, locals.value)
  }

  /** Behind the code: exceptions are skipped. */
  function ReadCodeEnd(s: seq<byte>, pos: nat, es: seq<Entry>, code: seq<byte>, maxLocals: nat): Option<CodePart> {
    match ReadNumber(s, pos, 2)
    case None => None
    case Some(exceptions) =>
      match ReadBytes(s, exceptions.next, 8 * exceptions.value)
      case None => None
      case Some(skipped) =>
        match ReadNumber(s, skipped.next, 2)
        case None => None
        case Some(count) =>
          match ReadCodeAttributes(s, count.next, count.value, es, |code|, None)
          case None => None
          case Some(lines) => Some(CodePart(code, if lines.Some? then lines.value else seq(|code|, _ => 0), maxLocals))
  }

  predicate CodeFits(m: MethodInfo) {
    m.maxLocals < U16 && |m.code| < U32 && LINES.fits(m.lines) &&
    (LINES.write(m.lines).Some? ==> |LINES.write(m.lines).value| < U32)
  }

  lemma CodeReads(m: MethodInfo, es: seq<Entry>)
    requires CodeInfo(m).Some? && CodeFits(m) && Utf8At(es, m.linesName) == Some(LINE_NUMBER_TABLE)
    ensures ReadCodeInfo(CodeInfo(m).value, es) ==
            Some(CodePart(m.code, Expand(m.lines, 0, 0, 0, |m.code|), m.maxLocals))
  {
    hide BigEndian, Power, At, ReadNumber, Cut, ReadBytes, Utf8At, LINES, Attribute, ReadAttribute, Expand;
    var s, lines := CodeInfo(m).value, LINES.write(m.lines).value;
    Powers();
    CutFits(m.maxLocals, 2);
    CutFits(|m.code|, 4);
    AtWhole(s);
    var e := Attribute(m.linesName, lines);
    var d := BigEndian(0, 2) + (BigEndian(1, 2) + e);
    var c := BigEndian(Cut(|m.code|, 4), 4) + (m.code + d);
    NumberFirst(s, 0, 0, 2, BigEndian(Cut(m.maxLocals, 2), 2) + c);
    NumberFirst(s, 2, m.maxLocals, 2, c);
    NumberFirst(s, 4, |m.code|, 4, m.code + d);
    BytesFirst(s, 8, m.code, d);
    var at := 8 + |m.code|;
    NumberFirst(s, at, 0, 2, BigEndian(1, 2) + e);
    NoBytes(s, at + 2);
    NumberFirst(s, at + 2, 1, 2, e);
    assert e + [] == e;
    AttributeReads(s, at + 4, m.linesName, LINE_NUMBER_TABLE, lines, [], es);
    TableReads(m.lines, lines);
  }

  lemma NoBytes(s: seq<byte>, pos: nat)
    requires pos <= |s|
    ensures ReadBytes(s, pos, 0) == Some(Read([], pos))
  {
    assert s[pos..pos + 0] == [];
  }

  lemma TableReads(lines: seq<LineEntry>, b: seq<byte>)
    requires LINES.write(lines) == Some(b) && LINES.fits(lines)
    ensures LINES.read(b, 0) == Some(Read(lines, |b|))
  {
    LinesExact();
    hide *;
    WrittenReads(LINES, lines, b);
  }

  /** A whole section. */
  lemma WrittenReads<T(!new)>(c: Codec<T>, x: T, b: seq<byte>)
    requires Exact(c) && c.write(x) == Some(b) && c.fits(x)
    ensures c.read(b, 0) == Some(Read(x, |b|))
  {
    hide At;
    AtWhole(b);
    assert Reads(c, x, b, 0);
  }

  // ------------------------------------------------------------------ methods

  const METHOD_FLAGS: nat := 9

  function MetaOf(m: MethodInfo): Meta { Meta(m.declared, m.upvalues, m.constants) }

  function MethodBytes(m: MethodInfo): Option<seq<byte>> {
    match CodeInfo(m)
    case None => None
    case Some(code) =>
      match META.write(MetaOf(m))
      case None => None
      case Some(meta) =>
        Some(Front(m, Attribute(m.codeName, code) + Attribute(m.metaName, meta)))
  }

  /** Flags, name, descriptor and the number of attributes. */
  function Front(m: MethodInfo, rest: seq<byte>): (r: seq<byte>)
    ensures |r| == 8 + |rest|
  {
    BigEndian(METHOD_FLAGS, 2) + (BigEndian(m.name, 2) + (BigEndian(m.descriptor, 2) + (BigEndian(2, 2) + rest)))
  }

  /** The attributes of a method: those of other names are skipped. */
  function ReadMethodAttributes(s: seq<byte>, pos: nat, n: nat, es: seq<Entry>, d: DecodedMethod)
    : Option<Read<DecodedMethod>>
    decreases n
  {
    if n == 0 then Some(Read(d, pos))
    else
      match ReadAttribute(s, pos, es)
      case None => None
      case Some(a) =>
        match Applied(d, a.value.0, a.value.1, es)
        case None => None
        case Some(e) => ReadMethodAttributes(s, a.next, n - 1, es, e)
  }

  /** One attribute of a method. */
  function Applied(d: DecodedMethod, name: Text, info: seq<byte>, es: seq<Entry>): Option<DecodedMethod> {
    if name == CODE then
      match ReadCodeInfo(info, es)
      case None => None
      case Some(c) => Some(d.(code := c.code, lines := c.lines, maxLocals := c.maxLocals))
    else if name == POLYLOFT_METHOD then
      match META.read(info, 0)
      case None => None
      case Some(m) =>
        Some(d.(declared := m.value.declared, upvalues := m.value.upvalues, constants := m.value.constants))
    else Some(d)
  }

  function Blank(name: Text, descriptor: Text): DecodedMethod {
    DecodedMethod(name, descriptor, [], [], 0, [], [], NOTHING_DECLARED)
  }

  function ReadMethodAt(s: seq<byte>, pos: nat, es: seq<Entry>): Option<Read<DecodedMethod>> {
    match ReadNumber(s, pos, 2)
    case None => None
    case Some(flags) =>
      match ReadNumber(s, flags.next, 2)
      case None => None
      case Some(name) =>
        match ReadNumber(s, name.next, 2)
        case None => None
        case Some(descriptor) =>
          match ReadNumber(s, descriptor.next, 2)
          case None => None
          case Some(count) =>
            var n, d := Utf8At(es, ToIndex(name.value)), Utf8At(es, ToIndex(descriptor.value));
            if n.None? || d.None? then None
            else ReadMethodAttributes(s, count.next, count.value, es, Blank(n.value, d.value))
  }

  predicate MethodFits(m: MethodInfo) {
    CodeFits(m) && META.fits(MetaOf(m)) &&
    (MethodBytes(m).Some? ==> |CodeInfo(m).value| < U32 && |META.write(MetaOf(m)).value| < U32)
  }

  lemma MetaReads(m: MethodInfo)
    requires META.write(MetaOf(m)).Some? && META.fits(MetaOf(m))
    ensures META.read(META.write(MetaOf(m)).value, 0) == Some(Read(MetaOf(m), |META.write(MetaOf(m)).value|))
  {
    hide META;
    MetaExact();
    WrittenReads(META, MetaOf(m), META.write(MetaOf(m)).value);
  }

  lemma FrontReads(s: seq<byte>, pos: nat, m: MethodInfo, rest: seq<byte>, es: seq<Entry>)
    requires At(s, pos, Front(m, rest)) && Utf8At(es, m.name).Some? && Utf8At(es, m.descriptor).Some?
    ensures At(s, pos + 8, rest)
    ensures ReadMethodAt(s, pos, es) ==
            ReadMethodAttributes(s, pos + 8, 2, es, Blank(Utf8At(es, m.name).value, Utf8At(es, m.descriptor).value))
  {
    hide BigEndian, At, ReadNumber, Utf8At, ReadMethodAttributes;
    PairFirst(s, pos, METHOD_FLAGS, m.name, BigEndian(m.descriptor, 2) + (BigEndian(2, 2) + rest));
    PairFirst(s, pos + 4, m.descriptor, 2, rest);
  }

  lemma FrontJoined(m: MethodInfo, a: seq<byte>, b: seq<byte>)
    ensures Front(m, a) + b == Front(m, a + b)
  {
    hide BigEndian;
  }

  /** A written method is read as the record says, and reading stops right behind
      it. */
  lemma MethodReads(s: seq<byte>, pos: nat, m: MethodInfo, rest: seq<byte>, es: seq<Entry>)
    requires MethodBytes(m).Some? && MethodFits(m) && Named(m, es)
    requires Utf8At(es, m.name).Some? && Utf8At(es, m.descriptor).Some?
    requires At(s, pos, MethodBytes(m).value + rest)
    ensures ReadMethod(m, es).Some?
    ensures ReadMethodAt(s, pos, es) == Some(Read(ReadMethod(m, es).value, pos + |MethodBytes(m).value|))
    ensures At(s, pos + |MethodBytes(m).value|, rest)
  {
    hide At, Utf8At, META, Attribute, ReadAttribute, ReadMethodAttributes, ReadMethodAt, CodeInfo, ReadCodeInfo,
         CodeFits, ReadMethod, Front, MetaOf, LINES, CODE, POLYLOFT_METHOD, LINE_NUMBER_TABLE, Blank;
    var code, meta := CodeInfo(m).value, META.write(MetaOf(m)).value;
    var a, b := Attribute(m.codeName, code), Attribute(m.metaName, meta);
    FrontJoined(m, a + b, rest);
    assert (a + b) + rest == a + (b + rest);
    FrontReads(s, pos, m, a + (b + rest), es);
    AttributeReads(s, pos + 8, m.codeName, CODE, code, b + rest, es);
    AttributeReads(s, pos + 14 + |code|, m.metaName, POLYLOFT_METHOD, meta, rest, es);
    CodeReads(m, es);
    MetaReads(m);
    AttributeLength(m.codeName, code);
    AttributeLength(m.metaName, meta);
    TwoApplied(s, pos + 8, es, m, code, meta);
  }

  lemma AttributeLength(name: CpIndex, info: seq<byte>)
    ensures |Attribute(name, info)| == 6 + |info|
  {
  }

  lemma TwoApplied(s: seq<byte>, pos: nat, es: seq<Entry>, m: MethodInfo, code: seq<byte>, meta: seq<byte>)
    requires ReadAttribute(s, pos, es) == Some(Read((CODE, code), pos + 6 + |code|))
    requires ReadAttribute(s, pos + 6 + |code|, es) == Some(Read((POLYLOFT_METHOD, meta), pos + 12 + |code| + |meta|))
    requires ReadCodeInfo(code, es) == Some(CodePart(m.code, Expand(m.lines, 0, 0, 0, |m.code|), m.maxLocals))
    requires META.read(meta, 0) == Some(Read(MetaOf(m), |meta|))
    requires Named(m, es) && Utf8At(es, m.name).Some? && Utf8At(es, m.descriptor).Some?
    ensures ReadMethod(m, es).Some?
    ensures ReadMethodAttributes(s, pos, 2, es, Blank(Utf8At(es, m.name).value, Utf8At(es, m.descriptor).value)) ==
            Some(Read(ReadMethod(m, es).value, pos + 12 + |code| + |meta|))
  {
    hide ReadAttribute, Applied, Expand, META, ReadCodeInfo, ReadMethod, ReadMethodAttributes, Blank, Utf8At, MetaOf,
         Named, CODE, POLYLOFT_METHOD;
    BothApplied(es, m, code, meta);
    var d := Blank(Utf8At(es, m.name).value, Utf8At(es, m.descriptor).value);
    var e := Applied(d, CODE, code, es).value;
    var f := ReadMethod(m, es).value;
    NextAttribute(s, pos, 2, es, d, CODE, code, pos + 6 + |code|, e);
    NextAttribute(s, pos + 6 + |code|, 1, es, e, POLYLOFT_METHOD, meta, pos + 12 + |code| + |meta|, f);
    NoAttributes(s, pos + 12 + |code| + |meta|, es, f);
  }

  lemma NextAttribute(
    s: seq<byte>, pos: nat, n: nat, es: seq<Entry>, d: DecodedMethod, name: Text, info: seq<byte>, next: nat,
    e: DecodedMethod)
    requires n > 0 && ReadAttribute(s, pos, es) == Some(Read((name, info), next)) && Applied(d, name, info, es) == Some(e)
    ensures ReadMethodAttributes(s, pos, n, es, d) == ReadMethodAttributes(s, next, n - 1, es, e)
  {
    hide ReadAttribute, Applied;
  }

  lemma NoAttributes(s: seq<byte>, pos: nat, es: seq<Entry>, d: DecodedMethod)
    ensures ReadMethodAttributes(s, pos, 0, es, d) == Some(Read(d, pos))
  {
  }

  lemma BothApplied(es: seq<Entry>, m: MethodInfo, code: seq<byte>, meta: seq<byte>)
    requires ReadCodeInfo(code, es) == Some(CodePart(m.code, Expand(m.lines, 0, 0, 0, |m.code|), m.maxLocals))
    requires META.read(meta, 0) == Some(Read(MetaOf(m), |meta|))
    requires Named(m, es) && Utf8At(es, m.name).Some? && Utf8At(es, m.descriptor).Some?
    ensures var d := Blank(Utf8At(es, m.name).value, Utf8At(es, m.descriptor).value);
            var e := Applied(d, CODE, code, es);
            e.Some? && ReadMethod(m, es).Some? && Applied(e.value, POLYLOFT_METHOD, meta, es) == ReadMethod(m, es)
  {
    hide ReadCodeInfo, META, Expand, Utf8At;
    assert CODE != POLYLOFT_METHOD;
  }

  function AllMethodBytes(ms: seq<MethodInfo>): Option<seq<byte>> {
    if ms == [] then Some([])
    else
      match MethodBytes(ms[0])
      case None => None
      case Some(b) =>
        match AllMethodBytes(ms[1..])
        case None => None
        case Some(rest) => Some(b + rest)
  }

  function ReadMethodsAt(s: seq<byte>, pos: nat, n: nat, es: seq<Entry>): Option<Read<seq<DecodedMethod>>>
    decreases n
  {
    if n == 0 then Some(Read([], pos))
    else
      match ReadMethodAt(s, pos, es)
      case None => None
      case Some(d) =>
        match ReadMethodsAt(s, d.next, n - 1, es)
        case None => None
        case Some(rest) => Some(Read([d.value] + rest.value, rest.next))
  }

  /** What the methods of a file are to resolve to. */
  predicate MethodsReadable(ms: seq<MethodInfo>, es: seq<Entry>) {
    forall k :: 0 <= k < |ms| ==> MethodReadable(ms[k], es)
  }

  predicate MethodReadable(m: MethodInfo, es: seq<Entry>) {
    MethodFits(m) && Named(m, es) && Utf8At(es, m.name).Some? && Utf8At(es, m.descriptor).Some? && ReadMethod(m, es).Some?
  }

  function RecordsOf(ms: seq<MethodInfo>, es: seq<Entry>): (ds: seq<DecodedMethod>)
    requires MethodsReadable(ms, es)
    ensures |ds| == |ms|
    ensures forall k :: 0 <= k < |ms| ==> ReadMethod(ms[k], es) == Some(ds[k])
  {
    if ms == [] then []
    else
      assert MethodReadable(ms[0], es);
      assert MethodsReadable(ms[1..], es) by { LaterReadable(ms, es); }
      [ReadMethod(ms[0], es).value] + RecordsOf(ms[1..], es)
  }

  lemma LaterReadable(ms: seq<MethodInfo>, es: seq<Entry>)
    requires MethodsReadable(ms, es) && ms != []
    ensures MethodsReadable(ms[1..], es)
  {
    hide MethodReadable;
    forall k | 0 <= k < |ms| - 1 ensures MethodReadable(ms[1..][k], es) { assert ms[1..][k] == ms[k + 1]; }
  }

  lemma {:induction false} MethodsRead(s: seq<byte>, pos: nat, ms: seq<MethodInfo>, rest: seq<byte>, es: seq<Entry>)
    requires AllMethodBytes(ms).Some? && MethodsReadable(ms, es) && At(s, pos, AllMethodBytes(ms).value + rest)
    ensures ReadMethodsAt(s, pos, |ms|, es) == Some(Read(RecordsOf(ms, es), pos + |AllMethodBytes(ms).value|))
    ensures At(s, pos + |AllMethodBytes(ms).value|, rest)
    decreases |ms|
  {
    hide MethodReadable, MethodBytes, ReadMethodAt, ReadMethod, At;
    if ms == [] {
      assert [] + rest == rest;
    } else {
      var b, c := MethodBytes(ms[0]).value, AllMethodBytes(ms[1..]).value;
      assert AllMethodBytes(ms).value + rest == b + (c + rest);
      OneMethod(s, pos, ms[0], c + rest, es);
      LaterReadable(ms, es);
      MethodsRead(s, pos + |b|, ms[1..], rest, es);
    }
  }

  lemma OneMethod(s: seq<byte>, pos: nat, m: MethodInfo, rest: seq<byte>, es: seq<Entry>)
    requires MethodReadable(m, es) && MethodBytes(m).Some? && At(s, pos, MethodBytes(m).value + rest)
    ensures ReadMethodAt(s, pos, es) == Some(Read(ReadMethod(m, es).value, pos + |MethodBytes(m).value|))
    ensures At(s, pos + |MethodBytes(m).value|, rest)
  {
    hide MethodBytes, ReadMethodAt, ReadMethod, At, MethodFits, Named;
    MethodReads(s, pos, m, rest, es);
  }

  // ------------------------------------------------------------------- loops

  /** The attributes of a method, one after the other. */
  method ReadAttributes(s: seq<byte>, pos: nat, n: nat, es: seq<Entry>, blank: DecodedMethod)
    returns (r: Option<Read<DecodedMethod>>)
    ensures r == ReadMethodAttributes(s, pos, n, es, blank)
  {
    hide ReadAttribute, Applied;
    var d, at := blank, pos;
    for k := 0 to n
      invariant ReadMethodAttributes(s, pos, n, es, blank) == ReadMethodAttributes(s, at, n - k, es, d)
    {
      var a := ReadAttribute(s, at, es);
      if a.None? { return None; }
      var e := Applied(d, a.value.value.0, a.value.value.1, es);
      if e.None? { return None; }
      d, at := e.value, a.value.next;
    }
    r := Some(Read(d, at));
  }

  function Prepended<T>(done: seq<T>, r: Option<Read<seq<T>>>): Option<Read<seq<T>>> {
    match r
    case None => None
    case Some(rest) => Some(Read(done + rest.value, rest.next))
  }

  lemma NothingPrepended<T>(r: Option<Read<seq<T>>>)
    ensures Prepended([], r) == r
  {
    if r.Some? { assert [] + r.value.value == r.value.value; }
  }

  lemma OneMore(s: seq<byte>, pos: nat, n: nat, es: seq<Entry>, done: seq<DecodedMethod>)
    requires n > 0
    ensures var d := ReadMethodAt(s, pos, es);
            Prepended(done, ReadMethodsAt(s, pos, n, es)) ==
            if d.None? then None else Prepended(done + [d.value.value], ReadMethodsAt(s, d.value.next, n - 1, es))
  {
    hide ReadMethodAt;
    var d := ReadMethodAt(s, pos, es);
    if d.Some? && ReadMethodsAt(s, d.value.next, n - 1, es).Some? {
      var rest := ReadMethodsAt(s, d.value.next, n - 1, es).value.value;
      assert done + ([d.value.value] + rest) == done + [d.value.value] + rest;
    }
  }

  /** The methods of a file. */
  method ReadMethods(s: seq<byte>, pos: nat, n: nat, es: seq<Entry>) returns (r: Option<Read<seq<DecodedMethod>>>)
    ensures r == ReadMethodsAt(s, pos, n, es)
  {
    hide ReadMethodAt, ReadMethodsAt, Prepended;
    var done: seq<DecodedMethod>, at := [], pos;
    NothingPrepended(ReadMethodsAt(s, pos, n, es));
    for k := 0 to n
      invariant ReadMethodsAt(s, pos, n, es) == Prepended(done, ReadMethodsAt(s, at, n - k, es))
    {
      OneMore(s, at, n - k, es, done);
      var d := ReadOneMethod(s, at, es);
      if d.None? { return None; }
      done, at := done + [d.value.value], d.value.next;
    }
    NoMethods(s, at, es, done);
    r := Some(Read(done, at));
  }

  lemma NoMethods(s: seq<byte>, pos: nat, es: seq<Entry>, done: seq<DecodedMethod>)
    ensures Prepended(done, ReadMethodsAt(s, pos, 0, es)) == Some(Read(done, pos))
  {
    assert done + [] == done;
  }

  method ReadOneMethod(s: seq<byte>, pos: nat, es: seq<Entry>) returns (r: Option<Read<DecodedMethod>>)
    ensures r == ReadMethodAt(s, pos, es)
  {
    hide ReadNumber, Utf8At, ReadMethodAttributes;
    var flags := ReadNumber(s, pos, 2);
    if flags.None? { return None; }
    var name := ReadNumber(s, flags.value.next, 2);
    if name.None? { return None; }
    var descriptor := ReadNumber(s, name.value.next, 2);
    if descriptor.None? { return None; }
    var count := ReadNumber(s, descriptor.value.next, 2);
    if count.None? { return None; }
    var n, d := Utf8At(es, ToIndex(name.value.value)), Utf8At(es, ToIndex(descriptor.value.value));
    if n.None? || d.None? { return None; }
    r := ReadAttributes(s, count.value.next, count.value.value, es, Blank(n.value, d.value));
  }
}
