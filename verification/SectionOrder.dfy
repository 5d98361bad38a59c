/** The bytes of a class file, literally: the order of the fields in its
    sections, its first bytes, and the tags of its constants. */
module SectionOrders {
  import opened Options
  import opened Machine
  import opened ConstantPools
  import opened LineTables
  import opened ModuleGraphs
  import opened ModuleCodecs
  import opened WireFormats
  import opened Sections
  import opened ClassFiles
  import opened ModuleFiles

  /** One after the other; an error if either is one. */
  function Then(x: Option<seq<byte>>, y: Option<seq<byte>>): Option<seq<byte>> {
    if x.Some? && y.Some? then Some(x.value + y.value) else None
  }

  lemma BothThen<A, B>(a: Codec<A>, b: Codec<B>, p: (A, B))
    ensures Both(a, b).write(p) == Then(a.write(p.0), b.write(p.1))
  {
  }

  lemma AsWrites<A, B>(c: Codec<A>, f: A -> B, g: B -> A, x: B)
    ensures As(c, f, g).write(x) == c.write(g(x))
  {
  }

  /** Name, type, visibility, whether it can be assigned. */
  lemma FieldInOrder(f: FieldDef)
    ensures FIELD.write(f) ==
            Then(TEXT.write(f.name), Then(TEXT.write(f.typ), Then(TEXT.write(f.visibility), FLAG.write(f.mutable))))
  {
    hide TEXT, FLAG, Both, Then;
    var p := OfField(f);
    AsWrites(Both(TEXT, Both(TEXT, Both(TEXT, FLAG))), ToField, OfField, f);
    BothThen(TEXT, Both(TEXT, Both(TEXT, FLAG)), p);
    BothThen(TEXT, Both(TEXT, FLAG), p.1);
    BothThen(TEXT, FLAG, p.1.1);
  }

  /** Interfaces, permitted subclasses, enum values. */
  lemma SupersInOrder(s: Supers)
    ensures SUPERS.write(s) ==
            Then(TEXTS.write(s.implements), Then(TEXTS.write(s.permits), TEXTS.write(s.enumOrder)))
  {
    hide TEXTS, Both, Then;
    var p := OfSupers(s);
    AsWrites(Both(TEXTS, Both(TEXTS, TEXTS)), ToSupers, OfSupers, s);
    BothThen(TEXTS, Both(TEXTS, TEXTS), p);
    BothThen(TEXTS, TEXTS, p.1);
  }

  /** Fields, their order, their slots, static fields. */
  lemma FieldsInOrder(f: FieldLists)
    ensures FIELDS.write(f) ==
            Then(Many(FIELD).write(f.fields), Then(TEXTS.write(f.order), Then(BINDINGS.write(f.slots),
              Many(FIELD).write(f.staticFields))))
  {
    hide TEXTS, BINDINGS, FIELD, Many, Both, Then;
    var p := OfFields(f);
    AsWrites(Both(Many(FIELD), Both(TEXTS, Both(BINDINGS, Many(FIELD)))), ToFields, OfFields, f);
    BothThen(Many(FIELD), Both(TEXTS, Both(BINDINGS, Many(FIELD))), p);
    BothThen(TEXTS, Both(BINDINGS, Many(FIELD)), p.1);
    BothThen(BINDINGS, Many(FIELD), p.1.1);
  }

  /** Methods, overloads, constructor, constructor overloads, static methods, their
      overloads, special methods. */
  lemma MethodsInOrder(m: MethodLists)
    ensures METHODS.write(m) ==
            Then(BINDINGS.write(m.methods), Then(OVERLOADS.write(m.overloads), Then(INDEX.write(m.construct),
              Then(Many(INDEX).write(m.constructors), Then(BINDINGS.write(m.statics),
              Then(OVERLOADS.write(m.staticOverloads), SPECIALS.write(m.specials)))))))
  {
    hide BINDINGS, OVERLOADS, INDEX, SPECIALS, Many, Both, Then;
    var p := OfMethods(m);
    AsWrites(Both(BINDINGS, Both(OVERLOADS, Both(INDEX, Both(Many(INDEX), Both(BINDINGS, Both(OVERLOADS, SPECIALS)))))),
             ToMethods, OfMethods, m);
    BothThen(BINDINGS, Both(OVERLOADS, Both(INDEX, Both(Many(INDEX), Both(BINDINGS, Both(OVERLOADS, SPECIALS))))), p);
    BothThen(OVERLOADS, Both(INDEX, Both(Many(INDEX), Both(BINDINGS, Both(OVERLOADS, SPECIALS)))), p.1);
    BothThen(INDEX, Both(Many(INDEX), Both(BINDINGS, Both(OVERLOADS, SPECIALS))), p.1.1);
    BothThen(Many(INDEX), Both(BINDINGS, Both(OVERLOADS, SPECIALS)), p.1.1.1);
    BothThen(BINDINGS, Both(OVERLOADS, SPECIALS), p.1.1.1.1);
    BothThen(OVERLOADS, SPECIALS, p.1.1.1.1.1);
  }

  /** Visibilities of methods and static methods, annotations, the constructor's
      visibility. */
  lemma VisibleInOrder(v: Visibilities)
    ensures VISIBLE.write(v) ==
            Then(TEXT_PAIRS.write(v.methods), Then(TEXT_PAIRS.write(v.statics),
              Then(ANNOTATIONS.write(v.annotations), TEXT.write(v.constructors))))
  {
    hide TEXT_PAIRS, ANNOTATIONS, TEXT, Both, Then;
    var p := OfVisible(v);
    AsWrites(Both(TEXT_PAIRS, Both(TEXT_PAIRS, Both(ANNOTATIONS, TEXT))), ToVisible, OfVisible, v);
    BothThen(TEXT_PAIRS, Both(TEXT_PAIRS, Both(ANNOTATIONS, TEXT)), p);
    BothThen(TEXT_PAIRS, Both(ANNOTATIONS, TEXT), p.1);
    BothThen(ANNOTATIONS, TEXT, p.1.1);
  }

  /** A class: identity, name, superclass, its name, flags; what it extends and
      permits, fields, method order, methods, visibilities. */
  lemma ClassInOrder(w: ClassWire)
    ensures CLASS.write(w) ==
            Then(Then(INDEX.write(w.id), Then(TEXT.write(w.name), Then(INDEX.write(w.superclass),
                   Then(TEXT.write(w.superName), INDEX.write(w.rest.flags))))),
            Then(SUPERS.write(w.rest.supers), Then(FIELDS.write(w.rest.fields), Then(TEXTS.write(w.methodOrder),
            Then(METHODS.write(w.methods), VISIBLE.write(w.rest.visible))))))
  {
    hide INDEX, TEXT, TEXTS, SUPERS, FIELDS, METHODS, VISIBLE, Both, Then;
    var q := OfClass(w);
    AsWrites(Both(HEAD, Both(SUPERS, Both(FIELDS, Both(TEXTS, Both(METHODS, VISIBLE))))), ToClass, OfClass, w);
    BothThen(HEAD, Both(SUPERS, Both(FIELDS, Both(TEXTS, Both(METHODS, VISIBLE)))), q);
    BothThen(SUPERS, Both(FIELDS, Both(TEXTS, Both(METHODS, VISIBLE))), q.1);
    BothThen(FIELDS, Both(TEXTS, Both(METHODS, VISIBLE)), q.1.1);
    BothThen(TEXTS, Both(METHODS, VISIBLE), q.1.1.1);
    BothThen(METHODS, VISIBLE, q.1.1.1.1);
    var p := q.0;
    BothThen(INDEX, Both(TEXT, Both(INDEX, Both(TEXT, INDEX))), p);
    BothThen(TEXT, Both(INDEX, Both(TEXT, INDEX)), p.1);
    BothThen(INDEX, Both(TEXT, INDEX), p.1.1);
    BothThen(TEXT, INDEX, p.1.1.1);
  }

  /** A capture. */
  lemma UpvalueInOrder(u: Upvalue)
    ensures UPVALUE.write(u) ==
            Then(BYTE.write(u.index), FLAG.write(u.isLocal))
  {
    hide BYTE, FLAG, Both, Then;
    var p := OfUpvalue(u);
    AsWrites(Both(BYTE, FLAG), ToUpvalue, OfUpvalue, u);
    BothThen(BYTE, FLAG, p);
  }

  /** A constant: kind, pool index, number. */
  lemma ConstantInOrder(c: EncodedConstant)
    ensures CONSTANTS.write(c) ==
            Then(Uint(1).write(c.kind), Then(INDEX.write(c.cpIndex), INDEX.write(c.refIndex)))
  {
    hide INDEX, Uint, Both, Then;
    var p := OfConstant(c);
    AsWrites(Both(Uint(1), Both(INDEX, INDEX)), ToConstant, OfConstant, c);
    BothThen(Uint(1), Both(INDEX, INDEX), p);
    BothThen(INDEX, INDEX, p.1);
  }

  /** A method of an interface. */
  lemma AskedInOrder(m: InterfaceMethod)
    ensures ASKED.write(m) ==
            Then(TEXT.write(m.key), Then(TEXT.write(m.name), Then(TEXTS.write(m.params), TEXT.write(m.result))))
  {
    hide TEXT, TEXTS, Both, Then;
    var p := OfAsked(m);
    AsWrites(Both(TEXT, Both(TEXT, Both(TEXTS, TEXT))), ToAsked, OfAsked, m);
    BothThen(TEXT, Both(TEXT, Both(TEXTS, TEXT)), p);
    BothThen(TEXT, Both(TEXTS, TEXT), p.1);
    BothThen(TEXTS, TEXT, p.1.1);
  }

  /** An interface. */
  lemma InterfaceInOrder(i: Interface)
    ensures INTERFACE.write(i) ==
            Then(TEXT.write(i.key), Then(TEXT.write(i.name), Then(TEXT.write(i.functional),
              Many(ASKED).write(i.methods))))
  {
    hide TEXT, ASKED, Many, Both, Then;
    var p := OfInterface(i);
    AsWrites(Both(TEXT, Both(TEXT, Both(TEXT, Many(ASKED)))), ToInterface, OfInterface, i);
    BothThen(TEXT, Both(TEXT, Both(TEXT, Many(ASKED))), p);
    BothThen(TEXT, Both(TEXT, Many(ASKED)), p.1);
    BothThen(TEXT, Many(ASKED), p.1.1);
  }

  /** The method attribute: owner, result, captures, number and names of global
      slots, interfaces, constants. */
  lemma MetaInOrder(m: Meta)
    ensures META.write(m) ==
            Then(TEXT.write(m.declared.owner), Then(TEXT.write(m.declared.result),
              Then(Many(UPVALUE).write(m.upvalues), Then(INDEX.write(m.declared.slotCount),
              Then(TEXTS.write(m.declared.slotNames), Then(Many(INTERFACE).write(m.declared.interfaces),
              Many(CONSTANTS).write(m.constants)))))))
  {
    hide TEXT, TEXTS, INDEX, UPVALUE, INTERFACE, CONSTANTS, Many, Both, Then;
    var p := OfMeta(m);
    AsWrites(Both(TEXT, Both(TEXT, Both(Many(UPVALUE), Both(INDEX, Both(TEXTS, Both(Many(INTERFACE), Many(CONSTANTS))))))),
             ToMeta, OfMeta, m);
    BothThen(TEXT, Both(TEXT, Both(Many(UPVALUE), Both(INDEX, Both(TEXTS, Both(Many(INTERFACE), Many(CONSTANTS)))))), p);
    BothThen(TEXT, Both(Many(UPVALUE), Both(INDEX, Both(TEXTS, Both(Many(INTERFACE), Many(CONSTANTS))))), p.1);
    BothThen(Many(UPVALUE), Both(INDEX, Both(TEXTS, Both(Many(INTERFACE), Many(CONSTANTS)))), p.1.1);
    BothThen(INDEX, Both(TEXTS, Both(Many(INTERFACE), Many(CONSTANTS))), p.1.1.1);
    BothThen(TEXTS, Both(Many(INTERFACE), Many(CONSTANTS)), p.1.1.1.1);
    BothThen(Many(INTERFACE), Many(CONSTANTS), p.1.1.1.1.1);
  }

  // ------------------------------------------------------------------- bytes

  /** Numbers have their high byte first. */
  lemma HighFirst(v: nat)
    ensures v < U16 ==> BigEndian(v, 2) == [v / 256, v % 256]
    ensures v < 0x1_0000_0000 ==>
              BigEndian(v, 4) == [v / 0x100_0000, v / 0x1_0000 % 256, v / 256 % 256, v % 256]
  {
    if v < U16 { TwoBytes(v); }
    if v < 0x1_0000_0000 { FourBytes(v); }
  }

  lemma TwoBytes(v: nat)
    requires v < U16
    ensures BigEndian(v, 2) == [v / 256, v % 256]
  {
    assert BigEndian(v / 256, 1) == [v / 256];
  }

  lemma FourBytes(v: nat)
    requires v < 0x1_0000_0000
    ensures BigEndian(v, 4) == [v / 0x100_0000, v / 0x1_0000 % 256, v / 256 % 256, v % 256]
  {
    var a, b, c := v / 0x100_0000, v / 0x1_0000, v / 256;
    assert c / 256 == b && b / 256 == a;
    assert BigEndian(a, 1) == [a];
    assert BigEndian(b, 2) == [a, b % 256];
    assert BigEndian(c, 3) == [a, b % 256, c % 256];
  }

  /** A file begins with the letters PFBC, minor version 0 and major version 1. */
  lemma FirstBytes(file: ModuleFile, ws: seq<ClassWire>, fields: seq<FieldInfo>, metadata: seq<byte>)
    requires FileBytes(file, ws, fields, metadata).Some?
    ensures [0x50, 0x46, 0x42, 0x43, 0, 0, 0, 1] <= FileBytes(file, ws, fields, metadata).value
  {
    hide *;
    Magic();
    var rest := FileFrom(file, ws, fields, metadata);
    Literally(rest);
  }

  lemma Magic()
    ensures BigEndian(0x5046_4243, 4) == [0x50, 0x46, 0x42, 0x43] && BigEndian(0, 2) == [0, 0] && BigEndian(1, 2) == [0, 1]
  {
    HighFirst(0x5046_4243);
    HighFirst(0);
    HighFirst(1);
  }

  lemma Literally(rest: seq<byte>)
    ensures [0x50, 0x46, 0x42, 0x43, 0, 0, 0, 1] <= [0x50, 0x46, 0x42, 0x43] + ([0, 0] + ([0, 1] + rest))
  {
  }

  lemma FileFrom(file: ModuleFile, ws: seq<ClassWire>, fields: seq<FieldInfo>, metadata: seq<byte>) returns (rest: seq<byte>)
    requires FileBytes(file, ws, fields, metadata).Some?
    ensures FileBytes(file, ws, fields, metadata).value ==
            BigEndian(0x5046_4243, 4) + (BigEndian(0, 2) + (BigEndian(1, 2) + rest))
  {
    hide BodyBytes, CLASSES, BigEndian, AllMethodBytes;
    rest := file.pool + BodyBytes(file, fields, AllMethodBytes(file.methods).value, CLASSES.write(ws).value, metadata);
  }

  /** A text in the pool: tag 1, a length of two bytes, its bytes. References to
      texts: tags 8 and 7 and an index. Numbers: tags 3, 4, 5 and 6 and their
      bytes in two's complement. */
  lemma EntryInOrder(e: Entry)
    requires e != Gap && Fits(e)
    ensures EntryBytes(e) ==
            match e
            case Utf8(s) => if |s| < U16 then Some([1, |s| / 256, |s| % 256] + s) else None
            case Str(text) => Some([8, text / 256, text % 256])
            case ClassName(name) => Some([7, name / 256, name % 256])
            case Integer(i) => Some([3] + BigEndian(if i < 0 then i + 0x1_0000_0000 else i, 4))
            case Single(bits) => Some([4] + BigEndian(bits, 4))
            case Long(l) => Some([5] + BigEndian(if l < 0 then l + TWO_64 else l, 8))
            case Double(bits) => Some([6] + BigEndian(bits, 8))
            case Gap => None
  {
    Powers();
    hide BigEndian, Power;
    match e
    case Utf8(s) =>
      if |s| < U16 {
        HighFirst(|s|);
        assert [1] + BigEndian(|s|, 2) == [1, |s| / 256, |s| % 256];
      }
    case Str(text) =>
      HighFirst(text);
      assert [8] + BigEndian(text, 2) == [8, text / 256, text % 256];
    case ClassName(name) =>
      HighFirst(name);
      assert [7] + BigEndian(name, 2) == [7, name / 256, name % 256];
    case _ =>
  }
}
