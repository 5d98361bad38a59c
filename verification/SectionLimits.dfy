/** The limits of the formats in plain terms: every list has fewer than 65536
    items. */
module SectionLimits {
  import opened Options
  import opened Machine
  import opened ConstantPools
  import opened ModuleGraphs
  import opened ModuleCodecs
  import opened WireFormats
  import opened Sections

  predicate Short<T>(l: seq<T>) { |l| < U16 }

  predicate ShortLists<K, T>(l: seq<(K, seq<T>)>) { Short(l) && forall k :: 0 <= k < |l| ==> Short(l[k].1) }

  lemma PartsFit()
    ensures (forall i: CpIndex :: INDEX.fits(i)) && (forall b: byte :: BYTE.fits(b)) && forall b: bool :: FLAG.fits(b)
    ensures forall t: Text :: TEXT.fits(t)
    ensures forall n: nat :: Uint(1).fits(n) <==> n < 256
  {
    Powers();
    UintFits(1);
    UintFits(2);
    hide Uint, Power;
    AsFits(Uint(2), ToIndex, OfIndex);
    AsFits(Uint(1), ToByte, OfByte);
    AsFits(Uint(1), ToFlag, OfFlag);
  }

  lemma ListsFit()
    ensures forall l: seq<Text> :: TEXTS.fits(l) <==> Short(l)
    ensures forall l: seq<CpIndex> :: Many(INDEX).fits(l) <==> Short(l)
    ensures forall l: seq<(Text, CpIndex)> :: BINDINGS.fits(l) <==> Short(l)
    ensures forall l: seq<(byte, CpIndex)> :: SPECIALS.fits(l) <==> Short(l)
    ensures forall l: seq<(Text, Text)> :: TEXT_PAIRS.fits(l) <==> Short(l)
  {
    PartsFit();
    hide TEXT, INDEX, BYTE, Many, Both;
    ManyFits(TEXT);
    ManyFits(INDEX);
    BothFits(TEXT, INDEX);
    ManyFits(Both(TEXT, INDEX));
    BothFits(BYTE, INDEX);
    ManyFits(Both(BYTE, INDEX));
    BothFits(TEXT, TEXT);
    ManyFits(Both(TEXT, TEXT));
  }

  lemma NestedFit()
    ensures forall l: seq<(Text, seq<CpIndex>)> :: OVERLOADS.fits(l) <==> ShortLists(l)
    ensures forall l: seq<(Text, seq<Text>)> :: ANNOTATIONS.fits(l) <==> ShortLists(l)
  {
    PartsFit();
    ListsFit();
    hide TEXT, INDEX, TEXTS, Many, Both;
    BothFits(TEXT, Many(INDEX));
    ManyFits(Both(TEXT, Many(INDEX)));
    BothFits(TEXT, TEXTS);
    ManyFits(Both(TEXT, TEXTS));
  }

  // ----------------------------------------------------------------- classes

  predicate SupersFit(s: Supers) { Short(s.implements) && Short(s.permits) && Short(s.enumOrder) }

  predicate FieldsFit(f: FieldLists) { Short(f.fields) && Short(f.order) && Short(f.slots) && Short(f.staticFields) }

  predicate MethodsFit(m: MethodLists) {
    Short(m.methods) && ShortLists(m.overloads) && Short(m.constructors) && Short(m.statics) &&
    ShortLists(m.staticOverloads) && Short(m.specials)
  }

  predicate VisibleFit(v: Visibilities) { Short(v.methods) && Short(v.statics) && ShortLists(v.annotations) }

  predicate ClassFits(w: ClassWire) {
    SupersFit(w.rest.supers) && FieldsFit(w.rest.fields) && Short(w.methodOrder) && MethodsFit(w.methods) &&
    VisibleFit(w.rest.visible)
  }

  lemma HeadLimits()
    ensures forall h: HeadTuple :: HEAD.fits(h)
  {
    PartsFit();
    hide INDEX, TEXT, Both;
    BothFits(TEXT, INDEX);
    BothFits(INDEX, Both(TEXT, INDEX));
    BothFits(TEXT, Both(INDEX, Both(TEXT, INDEX)));
    BothFits(INDEX, Both(TEXT, Both(INDEX, Both(TEXT, INDEX))));
  }

  lemma SupersLimits()
    ensures forall s: Supers :: SUPERS.fits(s) <==> SupersFit(s)
  {
    ListsFit();
    hide TEXTS, Both;
    BothFits(TEXTS, TEXTS);
    BothFits(TEXTS, Both(TEXTS, TEXTS));
    AsFits(Both(TEXTS, Both(TEXTS, TEXTS)), ToSupers, OfSupers);
  }

  lemma FieldLimits()
    ensures forall f: FieldDef :: FIELD.fits(f)
    ensures forall l: seq<FieldDef> :: Many(FIELD).fits(l) <==> Short(l)
  {
    PartsFit();
    hide TEXT, FLAG, Both, Many;
    BothFits(TEXT, FLAG);
    BothFits(TEXT, Both(TEXT, FLAG));
    BothFits(TEXT, Both(TEXT, Both(TEXT, FLAG)));
    AsFits(Both(TEXT, Both(TEXT, Both(TEXT, FLAG))), ToField, OfField);
    ManyFits(FIELD);
  }

  lemma FieldsLimits()
    ensures forall f: FieldLists :: FIELDS.fits(f) <==> FieldsFit(f)
  {
    ListsFit();
    FieldLimits();
    hide TEXTS, BINDINGS, FIELD, Both, Many;
    BothFits(BINDINGS, Many(FIELD));
    BothFits(TEXTS, Both(BINDINGS, Many(FIELD)));
    BothFits(Many(FIELD), Both(TEXTS, Both(BINDINGS, Many(FIELD))));
    AsFits(Both(Many(FIELD), Both(TEXTS, Both(BINDINGS, Many(FIELD)))), ToFields, OfFields);
  }

  lemma MethodsLimits()
    ensures forall m: MethodLists :: METHODS.fits(m) <==> MethodsFit(m)
  {
    PartsFit();
    ListsFit();
    NestedFit();
    hide BINDINGS, OVERLOADS, INDEX, SPECIALS, Both, Many;
    BothFits(OVERLOADS, SPECIALS);
    BothFits(BINDINGS, Both(OVERLOADS, SPECIALS));
    BothFits(Many(INDEX), Both(BINDINGS, Both(OVERLOADS, SPECIALS)));
    BothFits(INDEX, Both(Many(INDEX), Both(BINDINGS, Both(OVERLOADS, SPECIALS))));
    BothFits(OVERLOADS, Both(INDEX, Both(Many(INDEX), Both(BINDINGS, Both(OVERLOADS, SPECIALS)))));
    BothFits(BINDINGS, Both(OVERLOADS, Both(INDEX, Both(Many(INDEX), Both(BINDINGS, Both(OVERLOADS, SPECIALS))))));
    AsFits(Both(BINDINGS, Both(OVERLOADS, Both(INDEX, Both(Many(INDEX), Both(BINDINGS, Both(OVERLOADS, SPECIALS)))))),
           ToMethods, OfMethods);
  }

  lemma VisibleLimits()
    ensures forall v: Visibilities :: VISIBLE.fits(v) <==> VisibleFit(v)
  {
    PartsFit();
    ListsFit();
    NestedFit();
    hide TEXT_PAIRS, ANNOTATIONS, TEXT, Both;
    BothFits(ANNOTATIONS, TEXT);
    BothFits(TEXT_PAIRS, Both(ANNOTATIONS, TEXT));
    BothFits(TEXT_PAIRS, Both(TEXT_PAIRS, Both(ANNOTATIONS, TEXT)));
    AsFits(Both(TEXT_PAIRS, Both(TEXT_PAIRS, Both(ANNOTATIONS, TEXT))), ToVisible, OfVisible);
  }

  lemma ClassLimits()
    ensures forall w: ClassWire :: CLASS.fits(w) <==> ClassFits(w)
  {
    HeadLimits();
    SupersLimits();
    FieldsLimits();
    ListsFit();
    MethodsLimits();
    VisibleLimits();
    hide HEAD, SUPERS, FIELDS, TEXTS, METHODS, VISIBLE, Both, SupersFit, FieldsFit, MethodsFit, VisibleFit;
    BothFits(METHODS, VISIBLE);
    BothFits(TEXTS, Both(METHODS, VISIBLE));
    BothFits(FIELDS, Both(TEXTS, Both(METHODS, VISIBLE)));
    BothFits(SUPERS, Both(FIELDS, Both(TEXTS, Both(METHODS, VISIBLE))));
    BothFits(HEAD, Both(SUPERS, Both(FIELDS, Both(TEXTS, Both(METHODS, VISIBLE)))));
    AsFits(Both(HEAD, Both(SUPERS, Both(FIELDS, Both(TEXTS, Both(METHODS, VISIBLE))))), ToClass, OfClass);
  }

  /** The classes of a file fit exactly when there are few enough and each of
      their lists is short. */
  lemma ClassesLimits(ws: seq<ClassWire>)
    ensures CLASSES.fits(ws) <==> Short(ws) && forall k :: 0 <= k < |ws| ==> ClassFits(ws[k])
  {
    ClassLimits();
    hide CLASS, ClassFits, Many;
    ManyFits(CLASS);
  }

  // ----------------------------------------------------------------- methods

  predicate InterfaceFits(i: Interface) {
    Short(i.methods) && forall k :: 0 <= k < |i.methods| ==> Short(i.methods[k].params)
  }

  lemma AskedLimits()
    ensures forall a: InterfaceMethod :: ASKED.fits(a) <==> Short(a.params)
  {
    PartsFit();
    ListsFit();
    hide TEXT, TEXTS, Both;
    BothFits(TEXTS, TEXT);
    BothFits(TEXT, Both(TEXTS, TEXT));
    BothFits(TEXT, Both(TEXT, Both(TEXTS, TEXT)));
    AsFits(Both(TEXT, Both(TEXT, Both(TEXTS, TEXT))), ToAsked, OfAsked);
  }

  lemma InterfaceLimits()
    ensures forall i: Interface :: INTERFACE.fits(i) <==> InterfaceFits(i)
  {
    PartsFit();
    AskedLimits();
    hide TEXT, ASKED, Both, Many;
    ManyFits(ASKED);
    BothFits(TEXT, Many(ASKED));
    BothFits(TEXT, Both(TEXT, Many(ASKED)));
    BothFits(TEXT, Both(TEXT, Both(TEXT, Many(ASKED))));
    AsFits(Both(TEXT, Both(TEXT, Both(TEXT, Many(ASKED)))), ToInterface, OfInterface);
  }

  lemma UpvalueLimits()
    ensures forall u: Upvalue :: UPVALUE.fits(u)
  {
    PartsFit();
    hide BYTE, FLAG, Both;
    BothFits(BYTE, FLAG);
    AsFits(Both(BYTE, FLAG), ToUpvalue, OfUpvalue);
  }

  lemma ConstantLimits()
    ensures forall c: EncodedConstant :: CONSTANTS.fits(c) <==> c.kind < 256
  {
    PartsFit();
    hide INDEX, Uint, Both;
    BothFits(INDEX, INDEX);
    BothFits(Uint(1), Both(INDEX, INDEX));
    AsFits(Both(Uint(1), Both(INDEX, INDEX)), ToConstant, OfConstant);
  }

  /** What a method declares fits exactly when its lists are short. */
  lemma MetaLimits(m: Meta)
    ensures META.fits(m) <==>
            Short(m.upvalues) && Short(m.constants) && Short(m.declared.slotNames) && Short(m.declared.interfaces) &&
            (forall k :: 0 <= k < |m.declared.interfaces| ==> InterfaceFits(m.declared.interfaces[k])) &&
            forall k :: 0 <= k < |m.constants| ==> m.constants[k].kind < 256
  {
    PartsFit();
    ListsFit();
    UpvalueLimits();
    InterfaceLimits();
    ConstantLimits();
    hide TEXT, TEXTS, INDEX, UPVALUE, INTERFACE, CONSTANTS, InterfaceFits, Both, Many;
    ManyFits(UPVALUE);
    ManyFits(INTERFACE);
    ManyFits(CONSTANTS);
    BothFits(Many(INTERFACE), Many(CONSTANTS));
    BothFits(TEXTS, Both(Many(INTERFACE), Many(CONSTANTS)));
    BothFits(INDEX, Both(TEXTS, Both(Many(INTERFACE), Many(CONSTANTS))));
    BothFits(Many(UPVALUE), Both(INDEX, Both(TEXTS, Both(Many(INTERFACE), Many(CONSTANTS)))));
    BothFits(TEXT, Both(Many(UPVALUE), Both(INDEX, Both(TEXTS, Both(Many(INTERFACE), Many(CONSTANTS))))));
    BothFits(TEXT, Both(TEXT, Both(Many(UPVALUE), Both(INDEX, Both(TEXTS, Both(Many(INTERFACE), Many(CONSTANTS)))))));
    AsFits(Both(TEXT, Both(TEXT, Both(Many(UPVALUE), Both(INDEX, Both(TEXTS, Both(Many(INTERFACE), Many(CONSTANTS))))))),
           ToMeta, OfMeta);
  }
}
