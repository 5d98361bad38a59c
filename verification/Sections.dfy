/** The formats of a class file's Polyloft sections, field by field. */
module Sections {
  import opened Options
  import opened Machine
  import opened ConstantPools
  import opened LineTables
  import opened ModuleGraphs
  import opened ModuleCodecs
  import opened WireFormats

  // -------------------------------------------------------------------- parts

  function ToIndex(n: nat): CpIndex { if n < U16 then n else 0 }
  function OfIndex(i: CpIndex): nat { i }
  function ToByte(n: nat): byte { if n < 256 then n else 0 }
  function OfByte(b: byte): nat { b }

  /** Any byte but 1 reads as false. */
  function ToFlag(n: nat): bool { n == 1 }
  function OfFlag(b: bool): nat { if b then 1 else 0 }

  const INDEX: Codec<CpIndex> := As(Uint(2), ToIndex, OfIndex)
  const BYTE: Codec<byte> := As(Uint(1), ToByte, OfByte)
  const FLAG: Codec<bool> := As(Uint(1), ToFlag, OfFlag)

  lemma PartsExact()
    ensures Exact(INDEX) && Exact(BYTE) && Exact(FLAG) && Exact(Uint(1)) && Exact(Uint(2)) && Exact(TEXT)
  {
    UintExact(1);
    UintExact(2);
    TextExact();
    hide Exact, Power;
    Powers();
    AsExact(Uint(2), ToIndex, OfIndex);
    AsExact(Uint(1), ToByte, OfByte);
    AsExact(Uint(1), ToFlag, OfFlag);
  }

  const TEXTS: Codec<seq<Text>> := Many(TEXT)
  const BINDINGS: Codec<seq<(Text, CpIndex)>> := Many(Both(TEXT, INDEX))
  const OVERLOADS: Codec<seq<(Text, seq<CpIndex>)>> := Many(Both(TEXT, Many(INDEX)))
  const SPECIALS: Codec<seq<(byte, CpIndex)>> := Many(Both(BYTE, INDEX))
  const TEXT_PAIRS: Codec<seq<(Text, Text)>> := Many(Both(TEXT, TEXT))
  const ANNOTATIONS: Codec<seq<(Text, seq<Text>)>> := Many(Both(TEXT, TEXTS))

  lemma ListsExact()
    ensures Exact(TEXTS) && Exact(BINDINGS) && Exact(OVERLOADS) && Exact(SPECIALS) && Exact(TEXT_PAIRS)
    ensures Exact(ANNOTATIONS) && Exact(Many(INDEX))
  {
    PartsExact();
    hide Exact, INDEX, BYTE, TEXT, Many, Both;
    ManyExact(TEXT);
    ManyExact(INDEX);
    BothExact(TEXT, INDEX);
    ManyExact(Both(TEXT, INDEX));
    BothExact(TEXT, Many(INDEX));
    ManyExact(Both(TEXT, Many(INDEX)));
    BothExact(BYTE, INDEX);
    ManyExact(Both(BYTE, INDEX));
    BothExact(TEXT, TEXT);
    ManyExact(Both(TEXT, TEXT));
    BothExact(TEXT, TEXTS);
    ManyExact(Both(TEXT, TEXTS));
  }

  // ------------------------------------------------------------------- classes

  type FieldTuple = (Text, (Text, (Text, bool)))
  function ToField(p: FieldTuple): FieldDef { FieldDef(p.0, p.1.0, p.1.1.0, p.1.1.1) }
  function OfField(f: FieldDef): FieldTuple { (f.name, (f.typ, (f.visibility, f.mutable))) }

  const FIELD: Codec<FieldDef> := As(Both(TEXT, Both(TEXT, Both(TEXT, FLAG))), ToField, OfField)

  lemma FieldExact()
    ensures Exact(FIELD) && Exact(Many(FIELD))
  {
    PartsExact();
    hide Exact, FLAG, TEXT, Both, Many;
    BothExact(TEXT, FLAG);
    BothExact(TEXT, Both(TEXT, FLAG));
    BothExact(TEXT, Both(TEXT, Both(TEXT, FLAG)));
    AsExact(Both(TEXT, Both(TEXT, Both(TEXT, FLAG))), ToField, OfField);
    ManyExact(FIELD);
  }

  type SuperTuple = (seq<Text>, (seq<Text>, seq<Text>))
  function ToSupers(p: SuperTuple): Supers { Supers(p.0, p.1.0, p.1.1) }
  function OfSupers(s: Supers): SuperTuple { (s.implements, (s.permits, s.enumOrder)) }

  const SUPERS: Codec<Supers> := As(Both(TEXTS, Both(TEXTS, TEXTS)), ToSupers, OfSupers)

  lemma SupersExact()
    ensures Exact(SUPERS)
  {
    ListsExact();
    hide Exact, TEXTS, Both;
    BothExact(TEXTS, TEXTS);
    BothExact(TEXTS, Both(TEXTS, TEXTS));
    AsExact(Both(TEXTS, Both(TEXTS, TEXTS)), ToSupers, OfSupers);
  }

  type FieldsTuple = (seq<FieldDef>, (seq<Text>, (seq<(Text, CpIndex)>, seq<FieldDef>)))
  function ToFields(p: FieldsTuple): FieldLists { FieldLists(p.0, p.1.0, p.1.1.0, p.1.1.1) }
  function OfFields(f: FieldLists): FieldsTuple { (f.fields, (f.order, (f.slots, f.staticFields))) }

  const FIELDS: Codec<FieldLists> := As(Both(Many(FIELD), Both(TEXTS, Both(BINDINGS, Many(FIELD)))), ToFields, OfFields)

  lemma FieldsExact()
    ensures Exact(FIELDS)
  {
    ListsExact();
    FieldExact();
    hide Exact, TEXTS, BINDINGS, FIELD, Both, Many;
    BothExact(BINDINGS, Many(FIELD));
    BothExact(TEXTS, Both(BINDINGS, Many(FIELD)));
    BothExact(Many(FIELD), Both(TEXTS, Both(BINDINGS, Many(FIELD))));
    AsExact(Both(Many(FIELD), Both(TEXTS, Both(BINDINGS, Many(FIELD)))), ToFields, OfFields);
  }

  /** The methods of a class as they are in the file: maps as lists, in any
      order. */
  datatype MethodLists = MethodLists(
    methods: seq<(Text, CpIndex)>, overloads: seq<(Text, seq<CpIndex>)>, construct: CpIndex,
    constructors: seq<CpIndex>, statics: seq<(Text, CpIndex)>, staticOverloads: seq<(Text, seq<CpIndex>)>,
    specials: seq<(byte, CpIndex)>)

  type MethodTuple = (seq<(Text, CpIndex)>, (seq<(Text, seq<CpIndex>)>, (CpIndex, (seq<CpIndex>,
                      (seq<(Text, CpIndex)>, (seq<(Text, seq<CpIndex>)>, seq<(byte, CpIndex)>))))))

  function ToMethods(p: MethodTuple): MethodLists {
    var q := p.1.1.1;
    MethodLists(p.0, p.1.0, p.1.1.0, q.0, q.1.0, q.1.1.0, q.1.1.1)
  }

  function OfMethods(m: MethodLists): MethodTuple {
    (m.methods, (m.overloads, (m.construct, (m.constructors, (m.statics, (m.staticOverloads, m.specials))))))
  }

  const METHODS: Codec<MethodLists> :=
    As(Both(BINDINGS, Both(OVERLOADS, Both(INDEX, Both(Many(INDEX), Both(BINDINGS, Both(OVERLOADS, SPECIALS)))))),
       ToMethods, OfMethods)

  lemma MethodsExact()
    ensures Exact(METHODS)
  {
    PartsExact();
    ListsExact();
    hide Exact, BINDINGS, OVERLOADS, INDEX, SPECIALS, Both, Many;
    BothExact(OVERLOADS, SPECIALS);
    BothExact(BINDINGS, Both(OVERLOADS, SPECIALS));
    BothExact(Many(INDEX), Both(BINDINGS, Both(OVERLOADS, SPECIALS)));
    BothExact(INDEX, Both(Many(INDEX), Both(BINDINGS, Both(OVERLOADS, SPECIALS))));
    BothExact(OVERLOADS, Both(INDEX, Both(Many(INDEX), Both(BINDINGS, Both(OVERLOADS, SPECIALS)))));
    BothExact(BINDINGS, Both(OVERLOADS, Both(INDEX, Both(Many(INDEX), Both(BINDINGS, Both(OVERLOADS, SPECIALS))))));
    AsExact(Both(BINDINGS, Both(OVERLOADS, Both(INDEX, Both(Many(INDEX), Both(BINDINGS, Both(OVERLOADS, SPECIALS)))))),
            ToMethods, OfMethods);
  }

  type VisibleTuple = (seq<(Text, Text)>, (seq<(Text, Text)>, (seq<(Text, seq<Text>)>, Text)))
  function ToVisible(p: VisibleTuple): Visibilities { Visibilities(p.0, p.1.0, p.1.1.0, p.1.1.1) }
  function OfVisible(v: Visibilities): VisibleTuple { (v.methods, (v.statics, (v.annotations, v.constructors))) }

  const VISIBLE: Codec<Visibilities> := As(Both(TEXT_PAIRS, Both(TEXT_PAIRS, Both(ANNOTATIONS, TEXT))), ToVisible, OfVisible)

  lemma VisibleExact()
    ensures Exact(VISIBLE)
  {
    PartsExact();
    ListsExact();
    hide Exact, TEXT_PAIRS, ANNOTATIONS, TEXT, Both;
    BothExact(ANNOTATIONS, TEXT);
    BothExact(TEXT_PAIRS, Both(ANNOTATIONS, TEXT));
    BothExact(TEXT_PAIRS, Both(TEXT_PAIRS, Both(ANNOTATIONS, TEXT)));
    AsExact(Both(TEXT_PAIRS, Both(TEXT_PAIRS, Both(ANNOTATIONS, TEXT))), ToVisible, OfVisible);
  }

  /** A class in the file. The name of the superclass is written and never used. */
  datatype ClassWire = ClassWire(
    id: CpIndex, name: Text, superclass: CpIndex, superName: Text, rest: ClassRest, methodOrder: seq<Text>,
    methods: MethodLists)

  type HeadTuple = (CpIndex, (Text, (CpIndex, (Text, CpIndex))))
  type ClassTuple = (HeadTuple, (Supers, (FieldLists, (seq<Text>, (MethodLists, Visibilities)))))

  function ToClass(p: ClassTuple): ClassWire {
    var h, q := p.0, p.1.1;
    ClassWire(h.0, h.1.0, h.1.1.0, h.1.1.1.0, ClassRest(h.1.1.1.1, p.1.0, q.0, q.1.1.1), q.1.0, q.1.1.0)
  }

  function OfClass(w: ClassWire): ClassTuple {
    ((w.id, (w.name, (w.superclass, (w.superName, w.rest.flags)))),
     (w.rest.supers, (w.rest.fields, (w.methodOrder, (w.methods, w.rest.visible)))))
  }

  const HEAD: Codec<HeadTuple> := Both(INDEX, Both(TEXT, Both(INDEX, Both(TEXT, INDEX))))
  const CLASS: Codec<ClassWire> :=
    As(Both(HEAD, Both(SUPERS, Both(FIELDS, Both(TEXTS, Both(METHODS, VISIBLE))))), ToClass, OfClass)

  /** The classes attribute. */
  const CLASSES: Codec<seq<ClassWire>> := Many(CLASS)

  lemma HeadExact()
    ensures Exact(HEAD)
  {
    PartsExact();
    hide Exact, INDEX, TEXT, Both;
    BothExact(TEXT, INDEX);
    BothExact(INDEX, Both(TEXT, INDEX));
    BothExact(TEXT, Both(INDEX, Both(TEXT, INDEX)));
    BothExact(INDEX, Both(TEXT, Both(INDEX, Both(TEXT, INDEX))));
  }

  lemma ClassesExact()
    ensures Exact(CLASSES)
  {
    HeadExact();
    SupersExact();
    FieldsExact();
    ListsExact();
    MethodsExact();
    VisibleExact();
    hide Exact, HEAD, SUPERS, FIELDS, TEXTS, METHODS, VISIBLE, Both, Many;
    BothExact(METHODS, VISIBLE);
    BothExact(TEXTS, Both(METHODS, VISIBLE));
    BothExact(FIELDS, Both(TEXTS, Both(METHODS, VISIBLE)));
    BothExact(SUPERS, Both(FIELDS, Both(TEXTS, Both(METHODS, VISIBLE))));
    BothExact(HEAD, Both(SUPERS, Both(FIELDS, Both(TEXTS, Both(METHODS, VISIBLE)))));
    AsExact(Both(HEAD, Both(SUPERS, Both(FIELDS, Both(TEXTS, Both(METHODS, VISIBLE))))), ToClass, OfClass);
    ManyExact(CLASS);
  }

  // ------------------------------------------------------------------- methods

  type LineTuple = (nat, nat)
  function ToLine(p: LineTuple): LineEntry { LineEntry(p.0, p.1) }
  function OfLine(e: LineEntry): LineTuple { (e.offset, e.line) }

  /** The line number table. */
  const LINES: Codec<seq<LineEntry>> := Many(As(Both(Uint(2), Uint(2)), ToLine, OfLine))

  lemma LinesExact()
    ensures Exact(LINES)
  {
    PartsExact();
    hide Exact, Both, Many, Uint;
    BothExact(Uint(2), Uint(2));
    AsExact(Both(Uint(2), Uint(2)), ToLine, OfLine);
    ManyExact(As(Both(Uint(2), Uint(2)), ToLine, OfLine));
  }

  type UpvalueTuple = (byte, bool)
  function ToUpvalue(p: UpvalueTuple): Upvalue { Upvalue(p.0, p.1) }
  function OfUpvalue(u: Upvalue): UpvalueTuple { (u.index, u.isLocal) }

  const UPVALUE: Codec<Upvalue> := As(Both(BYTE, FLAG), ToUpvalue, OfUpvalue)

  type ConstantTuple = (nat, (CpIndex, CpIndex))
  function ToConstant(p: ConstantTuple): EncodedConstant { EncodedConstant(p.0, p.1.0, p.1.1) }
  function OfConstant(c: EncodedConstant): ConstantTuple { (c.kind, (c.cpIndex, c.refIndex)) }

  const CONSTANTS: Codec<EncodedConstant> := As(Both(Uint(1), Both(INDEX, INDEX)), ToConstant, OfConstant)

  lemma ConstantsExact()
    ensures Exact(Many(UPVALUE)) && Exact(Many(CONSTANTS))
  {
    PartsExact();
    hide Exact, Both, Many, Uint, INDEX, BYTE, FLAG;
    BothExact(BYTE, FLAG);
    AsExact(Both(BYTE, FLAG), ToUpvalue, OfUpvalue);
    ManyExact(UPVALUE);
    BothExact(INDEX, INDEX);
    BothExact(Uint(1), Both(INDEX, INDEX));
    AsExact(Both(Uint(1), Both(INDEX, INDEX)), ToConstant, OfConstant);
    ManyExact(CONSTANTS);
  }

  type AskedTuple = (Text, (Text, (seq<Text>, Text)))
  function ToAsked(p: AskedTuple): InterfaceMethod { InterfaceMethod(p.0, p.1.0, p.1.1.0, p.1.1.1) }
  function OfAsked(m: InterfaceMethod): AskedTuple { (m.key, (m.name, (m.params, m.result))) }

  const ASKED: Codec<InterfaceMethod> := As(Both(TEXT, Both(TEXT, Both(TEXTS, TEXT))), ToAsked, OfAsked)

  type InterfaceTuple = (Text, (Text, (Text, seq<InterfaceMethod>)))
  function ToInterface(p: InterfaceTuple): Interface { Interface(p.0, p.1.0, p.1.1.0, p.1.1.1) }
  function OfInterface(i: Interface): InterfaceTuple { (i.key, (i.name, (i.functional, i.methods))) }

  const INTERFACE: Codec<Interface> := As(Both(TEXT, Both(TEXT, Both(TEXT, Many(ASKED)))), ToInterface, OfInterface)

  lemma InterfacesExact()
    ensures Exact(Many(INTERFACE))
  {
    PartsExact();
    ListsExact();
    hide Exact, TEXT, TEXTS, Both, Many;
    BothExact(TEXTS, TEXT);
    BothExact(TEXT, Both(TEXTS, TEXT));
    BothExact(TEXT, Both(TEXT, Both(TEXTS, TEXT)));
    AsExact(Both(TEXT, Both(TEXT, Both(TEXTS, TEXT))), ToAsked, OfAsked);
    ManyExact(ASKED);
    BothExact(TEXT, Many(ASKED));
    BothExact(TEXT, Both(TEXT, Many(ASKED)));
    BothExact(TEXT, Both(TEXT, Both(TEXT, Many(ASKED))));
    AsExact(Both(TEXT, Both(TEXT, Both(TEXT, Many(ASKED)))), ToInterface, OfInterface);
    ManyExact(INTERFACE);
  }

  /** What the method attribute says. */
  datatype Meta = Meta(declared: Declared, upvalues: seq<Upvalue>, constants: seq<EncodedConstant>)

  type MetaTuple = (Text, (Text, (seq<Upvalue>, (CpIndex, (seq<Text>, (seq<Interface>, seq<EncodedConstant>))))))

  function ToMeta(p: MetaTuple): Meta {
    var q := p.1.1.1;
    Meta(Declared(p.0, p.1.0, q.0, q.1.0, q.1.1.0), p.1.1.0, q.1.1.1)
  }

  function OfMeta(m: Meta): MetaTuple {
    var d := m.declared;
    (d.owner, (d.result, (m.upvalues, (d.slotCount, (d.slotNames, (d.interfaces, m.constants))))))
  }

  const META: Codec<Meta> :=
    As(Both(TEXT, Both(TEXT, Both(Many(UPVALUE), Both(INDEX, Both(TEXTS, Both(Many(INTERFACE), Many(CONSTANTS))))))),
       ToMeta, OfMeta)

  lemma MetaExact()
    ensures Exact(META)
  {
    PartsExact();
    ListsExact();
    ConstantsExact();
    InterfacesExact();
    hide Exact, TEXT, TEXTS, INDEX, UPVALUE, INTERFACE, CONSTANTS, Both, Many;
    BothExact(Many(INTERFACE), Many(CONSTANTS));
    BothExact(TEXTS, Both(Many(INTERFACE), Many(CONSTANTS)));
    BothExact(INDEX, Both(TEXTS, Both(Many(INTERFACE), Many(CONSTANTS))));
    BothExact(Many(UPVALUE), Both(INDEX, Both(TEXTS, Both(Many(INTERFACE), Many(CONSTANTS)))));
    BothExact(TEXT, Both(Many(UPVALUE), Both(INDEX, Both(TEXTS, Both(Many(INTERFACE), Many(CONSTANTS))))));
    BothExact(TEXT, Both(TEXT, Both(Many(UPVALUE), Both(INDEX, Both(TEXTS, Both(Many(INTERFACE), Many(CONSTANTS)))))));
    AsExact(Both(TEXT, Both(TEXT, Both(Many(UPVALUE), Both(INDEX, Both(TEXTS, Both(Many(INTERFACE), Many(CONSTANTS))))))),
            ToMeta, OfMeta);
  }
}
