/** A whole class file: what its bytes are, how any bytes are read as one, and
    that reading the written bytes gives what was written. */
module ModuleFiles {
  import opened Options
  import opened Machine
  import opened ConstantPools
  import opened PoolBuilders
  import PoolCodec
  import opened Spelling
  import opened ModuleGraphs
  import opened ModuleCodecs
  import opened ModuleReaders
  import opened WireFormats
  import opened Sections
  import opened ClassFiles

  const MAGIC: nat := 0x5046_4243
  const MINOR_VERSION: nat := 0
  const MAJOR_VERSION: nat := 1
  const FILE_FLAGS: nat := 0x11
  const ATTRIBUTE_COUNT: nat := 3

  // ------------------------------------------------------------------ fields

  datatype FieldInfo = FieldInfo(flags: CpIndex, name: CpIndex, descriptor: CpIndex)

  /** A field, without attributes, in front of other bytes. */
  function FieldBytes(f: FieldInfo, rest: seq<byte>): (r: seq<byte>)
    ensures |r| == 8 + |rest|
  {
    BigEndian(f.flags, 2) + (BigEndian(f.name, 2) + (BigEndian(f.descriptor, 2) + (BigEndian(0, 2) + rest)))
  }

  function FieldsBytes(fs: seq<FieldInfo>, rest: seq<byte>): (r: seq<byte>)
    ensures |r| == 8 * |fs| + |rest|
  {
    if fs == [] then rest else FieldBytes(fs[0], FieldsBytes(fs[1..], rest))
  }

  /** Fields are passed over: the position behind n attributes, a field, or n
      fields. */
  function SkipAttributes(s: seq<byte>, pos: nat, n: nat): Option<nat>
    decreases n
  {
    if n == 0 then Some(pos)
    else
      match ReadNumber(s, pos, 2)
      case None => None
      case Some(name) =>
        match ReadNumber(s, name.next, 4)
        case None => None
        case Some(length) =>
          match ReadBytes(s, length.next, length.value)
          case None => None
          case Some(info) => SkipAttributes(s, info.next, n - 1)
  }

  function SkipMember(s: seq<byte>, pos: nat): Option<nat> {
    match ReadNumber(s, pos, 2)
    case None => None
    case Some(flags) =>
      match ReadNumber(s, flags.next, 2)
      case None => None
      case Some(name) =>
        match ReadNumber(s, name.next, 2)
        case None => None
        case Some(descriptor) =>
          match ReadNumber(s, descriptor.next, 2)
          case None => None
          case Some(count) => SkipAttributes(s, count.next, count.value)
  }

  function SkipMembers(s: seq<byte>, pos: nat, n: nat): Option<nat>
    decreases n
  {
    if n == 0 then Some(pos)
    else
      match SkipMember(s, pos)
      case None => None
      case Some(next) => SkipMembers(s, next, n - 1)
  }

  lemma FieldSkipped(s: seq<byte>, pos: nat, f: FieldInfo, rest: seq<byte>)
    requires At(s, pos, FieldBytes(f, rest))
    ensures SkipMember(s, pos) == Some(pos + 8) && At(s, pos + 8, rest)
  {
    hide BigEndian, At, ReadNumber;
    PairFirst(s, pos, f.flags, f.name, BigEndian(f.descriptor, 2) + (BigEndian(0, 2) + rest));
    PairFirst(s, pos + 4, f.descriptor, 0, rest);
  }

  lemma {:induction false} FieldsSkipped(s: seq<byte>, pos: nat, fs: seq<FieldInfo>, rest: seq<byte>)
    requires At(s, pos, FieldsBytes(fs, rest))
    ensures SkipMembers(s, pos, |fs|) == Some(pos + 8 * |fs|) && At(s, pos + 8 * |fs|, rest)
    decreases |fs|
  {
    hide FieldBytes, At, SkipMember;
    if fs != [] {
      FieldSkipped(s, pos, fs[0], FieldsBytes(fs[1..], rest));
      FieldsSkipped(s, pos + 8, fs[1..], rest);
    }
  }

  // -------------------------------------------------------------- attributes

  /** What the attributes of a file say. */
  datatype FileParts = FileParts(entry: nat, classes: seq<ClassWire>, metadata: seq<byte>)

  const NO_PARTS: FileParts := FileParts(0, [], [])

  function AppliedToFile(p: FileParts, name: Text, info: seq<byte>): Option<FileParts> {
    if name == POLYLOFT_MODULE then
      match ReadNumber(info, 0, 2)
      case None => None
      case Some(n) => Some(p.(entry := n.value))
    else if name == POLYLOFT_CLASSES then
      match CLASSES.read(info, 0)
      case None => None
      case Some(c) => Some(p.(classes := c.value))
    else if name == POLYLOFT_METADATA then Some(p.(metadata := info))
    else Some(p)
  }

  function ReadFileAttributes(s: seq<byte>, pos: nat, n: nat, es: seq<Entry>, p: FileParts): Option<Read<FileParts>>
    decreases n
  {
    if n == 0 then Some(Read(p, pos))
    else
      match ReadAttribute(s, pos, es)
      case None => None
      case Some(a) =>
        match AppliedToFile(p, a.value.0, a.value.1)
        case None => None
        case Some(q) => ReadFileAttributes(s, a.next, n - 1, es, q)
  }

  function FileAttributes(file: ModuleFile, classes: seq<byte>, metadata: seq<byte>): (r: seq<byte>)
    ensures |r| == 20 + |classes| + |metadata|
  {
    Attribute(file.names.entry, BigEndian(file.entry, 2)) +
    (Attribute(file.names.classes, classes) + Attribute(file.names.metadata, metadata))
  }

  lemma NextFileAttribute(
    s: seq<byte>, pos: nat, n: nat, es: seq<Entry>, p: FileParts, name: Text, info: seq<byte>, next: nat, q: FileParts)
    requires n > 0 && ReadAttribute(s, pos, es) == Some(Read((name, info), next)) && AppliedToFile(p, name, info) == Some(q)
    ensures ReadFileAttributes(s, pos, n, es, p) == ReadFileAttributes(s, next, n - 1, es, q)
  {
    hide ReadAttribute, AppliedToFile;
  }

  lemma NoFileAttributes(s: seq<byte>, pos: nat, es: seq<Entry>, p: FileParts)
    ensures ReadFileAttributes(s, pos, 0, es, p) == Some(Read(p, pos))
  {
  }

  lemma ClassesRead(ws: seq<ClassWire>, b: seq<byte>)
    requires CLASSES.write(ws) == Some(b) && CLASSES.fits(ws)
    ensures CLASSES.read(b, 0) == Some(Read(ws, |b|))
  {
    ClassesExact();
    hide *;
    WrittenReads(CLASSES, ws, b);
  }

  lemma NumberOnly(v: nat)
    requires v < U16
    ensures ReadNumber(BigEndian(v, 2), 0, 2) == Some(Read(v, 2))
  {
    hide BigEndian, Power, At, ReadNumber;
    Powers();
    AtWhole(BigEndian(v, 2));
    NumberThere(BigEndian(v, 2), 0, v, 2);
  }

  /** The three attributes, one after the other. */
  lemma AllApplied(entry: CpIndex, ws: seq<ClassWire>, b: seq<byte>, metadata: seq<byte>)
    requires CLASSES.write(ws) == Some(b) && CLASSES.fits(ws)
    ensures AppliedToFile(NO_PARTS, POLYLOFT_MODULE, BigEndian(entry, 2)) == Some(FileParts(entry, [], []))
    ensures AppliedToFile(FileParts(entry, [], []), POLYLOFT_CLASSES, b) == Some(FileParts(entry, ws, []))
    ensures AppliedToFile(FileParts(entry, ws, []), POLYLOFT_METADATA, metadata) == Some(FileParts(entry, ws, metadata))
  {
    hide BigEndian, ReadNumber, CLASSES;
    NumberOnly(entry);
    ClassesRead(ws, b);
    assert POLYLOFT_MODULE != POLYLOFT_CLASSES && POLYLOFT_MODULE != POLYLOFT_METADATA &&
           POLYLOFT_CLASSES != POLYLOFT_METADATA by { NamesDiffer(); }
  }

  lemma NamesDiffer()
    ensures POLYLOFT_MODULE != POLYLOFT_CLASSES && POLYLOFT_MODULE != POLYLOFT_METADATA
    ensures POLYLOFT_CLASSES != POLYLOFT_METADATA
  {
    assert POLYLOFT_MODULE[8] != POLYLOFT_CLASSES[8];
    assert |POLYLOFT_METADATA| != |POLYLOFT_MODULE|;
    assert |POLYLOFT_METADATA| != |POLYLOFT_CLASSES|;
  }

  lemma FileAttributesRead(
    s: seq<byte>, pos: nat, file: ModuleFile, ws: seq<ClassWire>, b: seq<byte>, metadata: seq<byte>, es: seq<Entry>)
    requires CLASSES.write(ws) == Some(b) && CLASSES.fits(ws) && |b| < U32 && |metadata| < U32
    requires FileNamed(file.names, es) && At(s, pos, FileAttributes(file, b, metadata))
    ensures ReadFileAttributes(s, pos, ATTRIBUTE_COUNT, es, NO_PARTS) ==
            Some(Read(FileParts(file.entry, ws, metadata), pos + |FileAttributes(file, b, metadata)|))
  {
    hide At, Utf8At, Attribute, ReadAttribute, ReadFileAttributes, AppliedToFile, CLASSES, BigEndian, POLYLOFT_MODULE,
         POLYLOFT_CLASSES, POLYLOFT_METADATA, NO_PARTS;
    var e := BigEndian(file.entry, 2);
    var y, z := Attribute(file.names.classes, b), Attribute(file.names.metadata, metadata);
    assert z + [] == z;
    AttributeReads(s, pos, file.names.entry, POLYLOFT_MODULE, e, y + z, es);
    AttributeReads(s, pos + 8, file.names.classes, POLYLOFT_CLASSES, b, z, es);
    AttributeReads(s, pos + 14 + |b|, file.names.metadata, POLYLOFT_METADATA, metadata, [], es);
    AllApplied(file.entry, ws, b, metadata);
    var p, q, r := FileParts(file.entry, [], []), FileParts(file.entry, ws, []), FileParts(file.entry, ws, metadata);
    NextFileAttribute(s, pos, 3, es, NO_PARTS, POLYLOFT_MODULE, e, pos + 8, p);
    NextFileAttribute(s, pos + 8, 2, es, p, POLYLOFT_CLASSES, b, pos + 14 + |b|, q);
    NextFileAttribute(s, pos + 14 + |b|, 1, es, q, POLYLOFT_METADATA, metadata, pos + 20 + |b| + |metadata|, r);
    NoFileAttributes(s, pos + 20 + |b| + |metadata|, es, r);
  }

  // -------------------------------------------------------------------- file

  /** The methods and the attributes. */
  function MembersBytes(file: ModuleFile, methods: seq<byte>, classes: seq<byte>, metadata: seq<byte>): seq<byte> {
    BigEndian(Cut(|file.methods|, 2), 2) +
    (methods + (BigEndian(ATTRIBUTE_COUNT, 2) + FileAttributes(file, classes, metadata)))
  }

  /** All behind the pool: no superclass, no interfaces. */
  function BodyBytes(
    file: ModuleFile, fields: seq<FieldInfo>, methods: seq<byte>, classes: seq<byte>, metadata: seq<byte>): seq<byte>
  {
    BigEndian(FILE_FLAGS, 2) + (BigEndian(file.thisClass, 2) + (BigEndian(0, 2) + (BigEndian(0, 2) +
    (BigEndian(Cut(|fields|, 2), 2) + FieldsBytes(fields, MembersBytes(file, methods, classes, metadata))))))
  }

  /** The bytes of a file: an error exactly when a text is too long. */
  function FileBytes(file: ModuleFile, ws: seq<ClassWire>, fields: seq<FieldInfo>, metadata: seq<byte>)
    : Option<seq<byte>>
  {
    match AllMethodBytes(file.methods)
    case None => None
    case Some(methods) =>
      match CLASSES.write(ws)
      case None => None
      case Some(classes) =>
        Some(BigEndian(MAGIC, 4) + (BigEndian(MINOR_VERSION, 2) + (BigEndian(MAJOR_VERSION, 2) +
             (file.pool + BodyBytes(file, fields, methods, classes, metadata)))))
  }

  datatype Parsed = Parsed(es: seq<Entry>, methods: seq<DecodedMethod>, parts: FileParts)

  function ReadMembers(s: seq<byte>, pos: nat, es: seq<Entry>): Option<Read<Parsed>> {
    match ReadNumber(s, pos, 2)
    case None => None
    case Some(n) =>
      match ReadMethodsAt(s, n.next, n.value, es)
      case None => None
      case Some(ms) =>
        match ReadNumber(s, ms.next, 2)
        case None => None
        case Some(k) =>
          match ReadFileAttributes(s, k.next, k.value, es, NO_PARTS)
          case None => None
          case Some(p) => Some(Read(Parsed(es, ms.value, p.value), p.next))
  }

  /** Where the methods begin: flags and class are ignored, interfaces and
      fields passed over. */
  function SkipToMembers(s: seq<byte>, pos: nat): Option<nat> {
    match ReadNumber(s, pos, 2)
    case None => None
    case Some(flags) =>
      match ReadNumber(s, flags.next, 2)
      case None => None
      case Some(thisClass) =>
        match ReadNumber(s, thisClass.next, 2)
        case None => None
        case Some(superclass) =>
          match ReadNumber(s, superclass.next, 2)
          case None => None
          case Some(count) =>
            match ReadBytes(s, count.next, 2 * count.value)
            case None => None
            case Some(interfaces) => SkipFields(s, interfaces.next)
  }

  function SkipFields(s: seq<byte>, pos: nat): Option<nat> {
    match ReadNumber(s, pos, 2)
    case None => None
    case Some(n) => SkipMembers(s, n.next, n.value)
  }

  /** Where the pool begins, if the file is of the right kind. */
  function ReadHead(s: seq<byte>): Option<nat> {
    match ReadNumber(s, 0, 4)
    case None => None
    case Some(magic) =>
      if magic.value != MAGIC then None
      else
        match ReadNumber(s, magic.next, 2)
        case None => None
        case Some(minor) =>
          match ReadNumber(s, minor.next, 2)
          case None => None
          case Some(major) =>
            if major.value != MAJOR_VERSION || minor.value != MINOR_VERSION then None else Some(major.next)
  }

  function ReadFile(s: seq<byte>): Option<Read<Parsed>> {
    match ReadHead(s)
    case None => None
    case Some(pos) =>
      match ReadPool(s, pos)
      case None => None
      case Some(pool) =>
        match SkipToMembers(s, pool.next)
        case None => None
        case Some(members) => ReadMembers(s, members, pool.value)
  }

  // -------------------------------------------------------------- round trip

  /** Every count and every length is within its field. */
  predicate FileFits(file: ModuleFile, ws: seq<ClassWire>, fields: seq<FieldInfo>, metadata: seq<byte>) {
    |file.methods| < U16 && |fields| < U16 && |metadata| < U32 && MethodsFit(file.methods) && CLASSES.fits(ws) &&
    (CLASSES.write(ws).Some? ==> |CLASSES.write(ws).value| < U32)
  }

  predicate MethodsFit(ms: seq<MethodInfo>) { forall k :: 0 <= k < |ms| ==> MethodFits(ms[k]) }

  lemma CountFirst(s: seq<byte>, pos: nat, n: nat, rest: seq<byte>)
    requires n < U16 && At(s, pos, BigEndian(Cut(n, 2), 2) + rest)
    ensures ReadNumber(s, pos, 2) == Some(Read(n, pos + 2)) && At(s, pos + 2, rest)
  {
    hide BigEndian, Power, At, ReadNumber, Cut;
    Powers();
    CutFits(n, 2);
    NumberFirst(s, pos, n, 2, rest);
  }

  lemma MembersRead(
    s: seq<byte>, pos: nat, file: ModuleFile, ws: seq<ClassWire>, methods: seq<byte>, classes: seq<byte>,
    metadata: seq<byte>, es: seq<Entry>)
    requires |file.methods| < U16 && AllMethodBytes(file.methods) == Some(methods) && MethodsReadable(file.methods, es)
    requires CLASSES.write(ws) == Some(classes) && CLASSES.fits(ws) && |classes| < U32 && |metadata| < U32
    requires FileNamed(file.names, es) && At(s, pos, MembersBytes(file, methods, classes, metadata))
    ensures ReadMembers(s, pos, es) ==
            Some(Read(Parsed(es, RecordsOf(file.methods, es), FileParts(file.entry, ws, metadata)),
                      pos + |MembersBytes(file, methods, classes, metadata)|))
  {
    hide *;
    var rest := FileAttributes(file, classes, metadata);
    MembersAre(file, methods, classes, metadata, rest);
    MethodsPlaced(s, pos, file.methods, methods, rest, es);
    FileAttributesRead(s, pos + 4 + |methods|, file, ws, classes, metadata, es);
    MembersStep(s, pos, es, |file.methods|, Read(RecordsOf(file.methods, es), pos + 2 + |methods|),
                Read(FileParts(file.entry, ws, metadata), pos + 4 + |methods| + |rest|));
  }

  lemma MembersAre(file: ModuleFile, methods: seq<byte>, classes: seq<byte>, metadata: seq<byte>, rest: seq<byte>)
    requires rest == FileAttributes(file, classes, metadata)
    ensures MembersBytes(file, methods, classes, metadata) ==
            BigEndian(Cut(|file.methods|, 2), 2) + (methods + (BigEndian(ATTRIBUTE_COUNT, 2) + rest))
    ensures |MembersBytes(file, methods, classes, metadata)| == 4 + |methods| + |rest|
  {
    hide BigEndian, Cut, FileAttributes;
  }

  /** The methods behind their number, and the number of attributes. */
  lemma MethodsPlaced(
    s: seq<byte>, pos: nat, ms: seq<MethodInfo>, methods: seq<byte>, rest: seq<byte>, es: seq<Entry>)
    requires |ms| < U16 && AllMethodBytes(ms) == Some(methods) && MethodsReadable(ms, es)
    requires At(s, pos, BigEndian(Cut(|ms|, 2), 2) + (methods + (BigEndian(ATTRIBUTE_COUNT, 2) + rest)))
    ensures var n: nat := |ms|; ReadNumber(s, pos, 2) == Some(Read(n, pos + 2))
    ensures ReadMethodsAt(s, pos + 2, |ms|, es) == Some(Read(RecordsOf(ms, es), pos + 2 + |methods|))
    ensures ReadNumber(s, pos + 2 + |methods|, 2) == Some(Read(ATTRIBUTE_COUNT, pos + 4 + |methods|))
    ensures At(s, pos + 4 + |methods|, rest)
  {
    hide *;
    var tail := BigEndian(ATTRIBUTE_COUNT, 2) + rest;
    CountFirst(s, pos, |ms|, methods + tail);
    MethodsRead(s, pos + 2, ms, tail, es);
    AttributesCounted(s, pos + 2 + |methods|, rest);
  }

  lemma AttributesCounted(s: seq<byte>, pos: nat, rest: seq<byte>)
    requires At(s, pos, BigEndian(ATTRIBUTE_COUNT, 2) + rest)
    ensures ReadNumber(s, pos, 2) == Some(Read(ATTRIBUTE_COUNT, pos + 2)) && At(s, pos + 2, rest)
  {
    hide BigEndian, At, ReadNumber;
    Powers();
    NumberFirst(s, pos, ATTRIBUTE_COUNT, 2, rest);
  }

  lemma MembersStep(s: seq<byte>, pos: nat, es: seq<Entry>, n: nat, ms: Read<seq<DecodedMethod>>, p: Read<FileParts>)
    requires ReadNumber(s, pos, 2) == Some(Read(n, pos + 2)) && ReadMethodsAt(s, pos + 2, n, es) == Some(ms)
    requires ReadNumber(s, ms.next, 2) == Some(Read(ATTRIBUTE_COUNT, ms.next + 2))
    requires ReadFileAttributes(s, ms.next + 2, ATTRIBUTE_COUNT, es, NO_PARTS) == Some(p)
    ensures ReadMembers(s, pos, es) == Some(Read(Parsed(es, ms.value, p.value), p.next))
  {
    hide ReadNumber, ReadMethodsAt, ReadFileAttributes;
  }

  lemma BodySkipped(
    s: seq<byte>, pos: nat, file: ModuleFile, fields: seq<FieldInfo>, members: seq<byte>, rest: seq<byte>)
    requires |fields| < U16 && rest == BigEndian(Cut(|fields|, 2), 2) + FieldsBytes(fields, members)
    requires At(s, pos, BigEndian(FILE_FLAGS, 2) + (BigEndian(file.thisClass, 2) + (BigEndian(0, 2) + (BigEndian(0, 2) + rest))))
    ensures SkipToMembers(s, pos) == Some(pos + 10 + 8 * |fields|)
    ensures At(s, pos + 10 + 8 * |fields|, members)
  {
    hide At, BigEndian, ReadNumber, Cut, FieldsBytes, SkipMembers;
    PairFirst(s, pos, FILE_FLAGS, file.thisClass, BigEndian(0, 2) + (BigEndian(0, 2) + rest));
    PairFirst(s, pos + 4, 0, 0, rest);
    CountFirst(s, pos + 8, |fields|, FieldsBytes(fields, members));
    NoBytes(s, pos + 8);
    FieldsSkipped(s, pos + 10, fields, members);
  }

  lemma HeadRead(s: seq<byte>, rest: seq<byte>)
    requires s == BigEndian(MAGIC, 4) + (BigEndian(MINOR_VERSION, 2) + (BigEndian(MAJOR_VERSION, 2) + rest))
    ensures ReadHead(s) == Some(8) && At(s, 8, rest)
  {
    hide At, BigEndian, ReadNumber;
    Powers();
    AtWhole(s);
    NumberFirst(s, 0, MAGIC, 4, BigEndian(MINOR_VERSION, 2) + (BigEndian(MAJOR_VERSION, 2) + rest));
    PairFirst(s, 4, MINOR_VERSION, MAJOR_VERSION, rest);
  }

  /** Reading the bytes of a file gives its pool, its methods as their records
      say, its classes, entry and metadata, and stops at the end of the file. */
  lemma FileReads(
    s: seq<byte>, file: ModuleFile, ws: seq<ClassWire>, fields: seq<FieldInfo>, metadata: seq<byte>, es: seq<Entry>)
    requires Paired(es) && |es| <= LAST_INDEX && PoolBytes(es) == Some(file.pool)
    requires FileNamed(file.names, es) && MethodsReadable(file.methods, es)
    requires FileFits(file, ws, fields, metadata) && FileBytes(file, ws, fields, metadata) == Some(s)
    ensures ReadFile(s) ==
            Some(Read(Parsed(es, RecordsOf(file.methods, es), FileParts(file.entry, ws, metadata)), |s|))
  {
    hide *;
    FileIs(s, file, ws, fields, metadata);
    var methods, classes := AllMethodBytes(file.methods).value, CLASSES.write(ws).value;
    var members := MembersBytes(file, methods, classes, metadata);
    var body := BodyBytes(file, fields, methods, classes, metadata);
    var fieldPart := BigEndian(Cut(|fields|, 2), 2) + FieldsBytes(fields, members);
    BodyIs(file, fields, methods, classes, metadata, fieldPart);
    HeadRead(s, file.pool + body);
    AtJoined(s, 8, file.pool, body);
    PoolRoundTrip(s, 8, es);
    BodySkipped(s, 8 + |file.pool|, file, fields, members, fieldPart);
    MembersRead(s, 18 + |file.pool| + 8 * |fields|, file, ws, methods, classes, metadata, es);
    FileStep(s, 8, Read(es, 8 + |file.pool|), 18 + |file.pool| + 8 * |fields|);
  }

  lemma FileIs(s: seq<byte>, file: ModuleFile, ws: seq<ClassWire>, fields: seq<FieldInfo>, metadata: seq<byte>)
    requires FileFits(file, ws, fields, metadata) && FileBytes(file, ws, fields, metadata) == Some(s)
    ensures |file.methods| < U16 && |fields| < U16 && |metadata| < U32
    ensures AllMethodBytes(file.methods).Some? && CLASSES.write(ws).Some? && CLASSES.fits(ws)
    ensures |CLASSES.write(ws).value| < U32
    ensures var methods, classes := AllMethodBytes(file.methods).value, CLASSES.write(ws).value;
            var members := MembersBytes(file, methods, classes, metadata);
            s == BigEndian(MAGIC, 4) + (BigEndian(MINOR_VERSION, 2) + (BigEndian(MAJOR_VERSION, 2) +
                 (file.pool + BodyBytes(file, fields, methods, classes, metadata)))) &&
            18 + |file.pool| + 8 * |fields| + |members| == |s|
  {
    hide CLASSES, AllMethodBytes, MethodsFit, MembersBytes, BigEndian, FieldsBytes, Cut;
  }

  lemma FileStep(s: seq<byte>, pos: nat, pool: Read<seq<Entry>>, members: nat)
    requires ReadHead(s) == Some(pos) && ReadPool(s, pos) == Some(pool)
    requires SkipToMembers(s, pool.next) == Some(members)
    ensures ReadFile(s) == ReadMembers(s, members, pool.value)
  {
    hide ReadHead, ReadPool, SkipToMembers, ReadMembers;
  }

  lemma BodyIs(
    file: ModuleFile, fields: seq<FieldInfo>, methods: seq<byte>, classes: seq<byte>, metadata: seq<byte>,
    rest: seq<byte>)
    requires rest == BigEndian(Cut(|fields|, 2), 2) + FieldsBytes(fields, MembersBytes(file, methods, classes, metadata))
    ensures BodyBytes(file, fields, methods, classes, metadata) ==
            BigEndian(FILE_FLAGS, 2) + (BigEndian(file.thisClass, 2) + (BigEndian(0, 2) + (BigEndian(0, 2) + rest)))
  {
    hide BigEndian, Cut, FieldsBytes, MembersBytes;
  }

  // ----------------------------------------------------------------- classes

  /** A list with names as a map: of a repeated name, the last. */
  function Bound<K, V>(l: seq<(K, V)>): (m: map<K, V>)
    ensures forall k :: k in m ==> exists i :: 0 <= i < |l| && l[i].0 == k
  {
    if l == [] then map[] else Bound(l[..|l| - 1])[l[|l| - 1].0 := l[|l| - 1].1]
  }

  function InfoOf(w: ClassWire): ClassInfo {
    ClassInfo(w.id, w.name, w.superclass, Bound(w.methods.methods), Bound(w.methods.overloads),
              Bound(w.methods.statics), Bound(w.methods.staticOverloads), w.methods.construct,
              w.methods.constructors, Bound(w.methods.specials), w.methodOrder, w.rest)
  }

  function InfosOf(ws: seq<ClassWire>): seq<ClassInfo> { seq(|ws|, k requires 0 <= k < |ws| => InfoOf(ws[k])) }

  /** Every name of a map, with its value, once. */
  method Listed<K, V>(m: map<K, V>) returns (l: seq<(K, V)>)
    ensures Bound(l) == m && |l| == |m|
  {
    l := [];
    var rest := m.Keys;
    while rest != {}
      invariant rest <= m.Keys && Bound(l) == m - rest && |l| + |rest| == |m|
      decreases rest
    {
      var k :| k in rest;
      var l' := l + [(k, m[k])];
      assert l'[..|l|] == l;
      rest := rest - {k};
      l := l';
    }
  }

  /** The special methods, whose slots are written as bytes. */
  method ListedSlots(m: map<nat, CpIndex>) returns (l: seq<(byte, CpIndex)>)
    requires forall k :: k in m ==> k < 256
    ensures Bound(l) == m && |l| == |m|
  {
    var bytes: map<byte, CpIndex> := map k: byte | k in m :: m[k];
    assert bytes == m;
    l := Listed(bytes);
  }

  function SuperName(classes: seq<ClassInfo>, id: CpIndex): Text {
    if 1 <= id <= |classes| then classes[id - 1].name else []
  }

  method WireClass(c: ClassInfo, superName: Text) returns (w: ClassWire)
    requires ByteSlots(c)
    ensures InfoOf(w) == c && w.superName == superName
  {
    hide Bound;
    var methods := Listed(c.methods);
    var overloads := Listed(c.methodOverloads);
    var statics := Listed(c.staticMethods);
    var staticOverloads := Listed(c.staticMethodOverloads);
    var specials := ListedSlots(c.specialMethods);
    w := ClassWire(c.id, c.name, c.superclass, superName, c.rest, c.methodOrder,
                   MethodLists(methods, overloads, c.construct, c.constructorOverloads, statics, staticOverloads, specials));
  }

  method WireClasses(cs: seq<ClassInfo>) returns (ws: seq<ClassWire>)
    requires forall k :: 0 <= k < |cs| ==> ByteSlots(cs[k])
    ensures InfosOf(ws) == cs
  {
    hide InfoOf, ByteSlots;
    ws := [];
    for k := 0 to |cs|
      invariant |ws| == k && forall j :: 0 <= j < k ==> InfoOf(ws[j]) == cs[j]
    {
      var w := WireClass(cs[k], SuperName(cs, cs[k].superclass));
      ws := ws + [w];
    }
  }

  // ----------------------------------------------------------------- reading

  method ReadClassFileAttributes(s: seq<byte>, pos: nat, n: nat, es: seq<Entry>) returns (r: Option<Read<FileParts>>)
    ensures r == ReadFileAttributes(s, pos, n, es, NO_PARTS)
  {
    hide ReadAttribute, AppliedToFile, NO_PARTS;
    var p, at := NO_PARTS, pos;
    for k := 0 to n
      invariant ReadFileAttributes(s, pos, n, es, NO_PARTS) == ReadFileAttributes(s, at, n - k, es, p)
    {
      var a := ReadAttribute(s, at, es);
      if a.None? { return None; }
      var q := AppliedToFile(p, a.value.value.0, a.value.value.1);
      if q.None? { return None; }
      p, at := q.value, a.value.next;
    }
    r := Some(Read(p, at));
  }

  method ParseFile(s: seq<byte>) returns (r: Option<Read<Parsed>>)
    ensures r == ReadFile(s)
  {
    hide ReadHead, ReadPool, SkipToMembers, ReadNumber, ReadMethodsAt, ReadFileAttributes;
    var start := ReadHead(s);
    if start.None? { return None; }
    var pool := PoolCodec.ReadCP(s, start.value);
    if pool.None? { return None; }
    var members := SkipToMembers(s, pool.value.next);
    if members.None? { return None; }
    var n := ReadNumber(s, members.value, 2);
    if n.None? { return None; }
    var ms := ReadMethods(s, n.value.next, n.value.value, pool.value.value);
    if ms.None? { return None; }
    var k := ReadNumber(s, ms.value.next, 2);
    if k.None? { return None; }
    var p := ReadClassFileAttributes(s, k.value.next, k.value.value, pool.value.value);
    if p.None? { return None; }
    r := Some(Read(Parsed(pool.value.value, ms.value.value, p.value.value), p.value.next));
  }

  /** Reading any bytes: an error exactly when they are no class file or there is
      no entry; otherwise new functions and classes as the file says. */
  method ReadModule(s: seq<byte>) returns (r: Option<(Loaded, seq<byte>)>)
    ensures r.Some? <==> ReadFile(s).Some? && 1 <= ReadFile(s).value.value.parts.entry <= |ReadFile(s).value.value.methods|
    ensures r.Some? ==>
              var p := ReadFile(s).value.value;
              Filled(p.methods, InfosOf(p.parts.classes), p.parts.entry, p.es, r.value.0) &&
              r.value.1 == p.parts.metadata
    ensures r.Some? ==> forall j :: 0 <= j < |r.value.0.fs| ==> fresh(r.value.0.fs[j])
  {
    hide ReadFile, Filled;
    var p := ParseFile(s);
    if p.None? { return None; }
    var q := p.value.value;
    var loaded := Populate(q.methods, InfosOf(q.parts.classes), q.parts.entry, q.es);
    if loaded.None? { return None; }
    r := Some((loaded.value, q.parts.metadata));
  }
}
