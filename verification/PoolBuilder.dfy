/** The builder of a constant pool, which stores every value once, and the
    lookups of the reader. */
module PoolBuilders {
  import opened Options
  import opened Machine
  import opened ConstantPools

  // ----------------------------------------------------------------- lookups

  function EntryAt(es: seq<Entry>, index: nat): (r: Option<Entry>)
    ensures r.Some? ==> 1 <= index <= |es| && es[index - 1] == r.value != Gap
  {
    if index == 0 || index > |es| || es[index - 1] == Gap then None else Some(es[index - 1])
  }

  function Utf8At(es: seq<Entry>, index: nat): Option<Text> {
    var e := EntryAt(es, index);
    if e.Some? && e.value.Utf8? then Some(e.value.s) else None
  }

  function StringAt(es: seq<Entry>, index: nat): Option<Text> {
    var e := EntryAt(es, index);
    if e.Some? && e.value.Str? then Utf8At(es, e.value.text) else None
  }

  function ClassAt(es: seq<Entry>, index: nat): Option<Text> {
    var e := EntryAt(es, index);
    if e.Some? && e.value.ClassName? then Utf8At(es, e.value.name) else None
  }

  function IntegerAt(es: seq<Entry>, index: nat): Option<int> {
    var e := EntryAt(es, index);
    if e.Some? && e.value.Integer? then Some(e.value.i) else None
  }

  function LongAt(es: seq<Entry>, index: nat): Option<int> {
    var e := EntryAt(es, index);
    if e.Some? && e.value.Long? then Some(e.value.l) else None
  }

  function DoubleAt(es: seq<Entry>, index: nat): Option<nat> {
    var e := EntryAt(es, index);
    if e.Some? && e.value.Double? then Some(e.value.bits) else None
  }

  predicate Extends(after: seq<Entry>, before: seq<Entry>) {
    |before| <= |after| && forall p :: 0 <= p < |before| ==> after[p] == before[p]
  }

  /** Adding entries never invalidates an index that was handed out. */
  lemma LookupsKept(before: seq<Entry>, after: seq<Entry>, index: nat)
    requires Extends(after, before) && EntryAt(before, index).Some?
    ensures EntryAt(after, index) == EntryAt(before, index)
    ensures Utf8At(before, index).Some? ==> Utf8At(after, index) == Utf8At(before, index)
    ensures StringAt(before, index).Some? ==> StringAt(after, index) == StringAt(before, index)
    ensures ClassAt(before, index).Some? ==> ClassAt(after, index) == ClassAt(before, index)
    ensures IntegerAt(after, index) == IntegerAt(before, index)
    ensures LongAt(after, index) == LongAt(before, index)
    ensures DoubleAt(after, index) == DoubleAt(before, index)
  {
  }

  // ------------------------------------------------------------------ tables

  // Each table holds exactly the entries of one kind, by value.

  predicate Utf8Table(es: seq<Entry>, t: map<Text, CpIndex>) {
    (forall v :: v in t ==> Utf8At(es, t[v]) == Some(v)) &&
    (forall p :: 0 <= p < |es| && es[p].Utf8? ==> es[p].s in t && t[es[p].s] == p + 1)
  }

  predicate StringTable(es: seq<Entry>, t: map<Text, CpIndex>) {
    (forall v :: v in t ==> StringAt(es, t[v]) == Some(v)) &&
    (forall p :: 0 <= p < |es| && es[p].Str? ==>
       var s := Utf8At(es, es[p].text);
       s.Some? && s.value in t && t[s.value] == p + 1)
  }

  predicate ClassTable(es: seq<Entry>, t: map<Text, CpIndex>) {
    (forall v :: v in t ==> ClassAt(es, t[v]) == Some(v)) &&
    (forall p :: 0 <= p < |es| && es[p].ClassName? ==>
       var s := Utf8At(es, es[p].name);
       s.Some? && s.value in t && t[s.value] == p + 1)
  }

  predicate IntegerTable(es: seq<Entry>, t: map<int, CpIndex>) {
    (forall v :: v in t ==> IntegerAt(es, t[v]) == Some(v)) &&
    (forall p :: 0 <= p < |es| && es[p].Integer? ==> es[p].i in t && t[es[p].i] == p + 1)
  }

  predicate LongTable(es: seq<Entry>, t: map<int, CpIndex>) {
    (forall v :: v in t ==> LongAt(es, t[v]) == Some(v)) &&
    (forall p :: 0 <= p < |es| && es[p].Long? ==> es[p].l in t && t[es[p].l] == p + 1)
  }

  predicate DoubleTable(es: seq<Entry>, t: map<nat, CpIndex>) {
    (forall v :: v in t ==> DoubleAt(es, t[v]) == Some(v)) &&
    (forall p :: 0 <= p < |es| && es[p].Double? ==> es[p].bits in t && t[es[p].bits] == p + 1)
  }

  lemma Appended(es: seq<Entry>, e: Entry)
    requires e != Gap
    ensures var to := es + Whole(e);
            EntryAt(to, |es| + 1) == Some(e) && Extends(to, es) && (|to| == |es| + 2 ==> to[|es| + 1] == Gap)
  {
  }

  lemma {:induction false} AppendedWell(es: seq<Entry>, e: Entry)
    requires Paired(es) && e != Gap && Fits(e)
    ensures Paired(es + Whole(e))
    decreases |es|
  {
    if es == [] {
      assert es + Whole(e) == Whole(e);
      if Wide(e) { assert Whole(e)[2..] == []; } else { assert Whole(e)[1..] == []; }
    } else {
      AppendedWell(Tail(es), e);
      var w := |Whole(es[0])|;
      assert (es + Whole(e))[w..] == es[w..] + Whole(e);
    }
  }

  lemma Utf8Kept(es: seq<Entry>, e: Entry, t: map<Text, CpIndex>)
    requires |es| < LAST_INDEX && Utf8Table(es, t) && e != Gap && (e.Utf8? ==> e.s !in t)
    ensures Utf8Table(es + Whole(e), if e.Utf8? then t[e.s := |es| + 1] else t)
  {
    Appended(es, e);
  }

  lemma StringKept(es: seq<Entry>, e: Entry, t: map<Text, CpIndex>)
    requires |es| < LAST_INDEX && StringTable(es, t) && e != Gap && (e.Str? ==> Utf8At(es, e.text).Some? && Utf8At(es, e.text).value !in t)
    ensures StringTable(es + Whole(e), if e.Str? then t[Utf8At(es, e.text).value := |es| + 1] else t)
  {
    Appended(es, e);
  }

  lemma ClassKept(es: seq<Entry>, e: Entry, t: map<Text, CpIndex>)
    requires |es| < LAST_INDEX && ClassTable(es, t) && e != Gap
    requires e.ClassName? ==> Utf8At(es, e.name).Some? && Utf8At(es, e.name).value !in t
    ensures ClassTable(es + Whole(e), if e.ClassName? then t[Utf8At(es, e.name).value := |es| + 1] else t)
  {
    Appended(es, e);
  }

  lemma IntegerKept(es: seq<Entry>, e: Entry, t: map<int, CpIndex>)
    requires |es| < LAST_INDEX && IntegerTable(es, t) && e != Gap && (e.Integer? ==> e.i !in t)
    ensures IntegerTable(es + Whole(e), if e.Integer? then t[e.i := |es| + 1] else t)
  {
    Appended(es, e);
  }

  lemma LongKept(es: seq<Entry>, e: Entry, t: map<int, CpIndex>)
    requires |es| < LAST_INDEX && LongTable(es, t) && e != Gap && (e.Long? ==> e.l !in t)
    ensures LongTable(es + Whole(e), if e.Long? then t[e.l := |es| + 1] else t)
  {
    Appended(es, e);
  }

  lemma DoubleKept(es: seq<Entry>, e: Entry, t: map<nat, CpIndex>)
    requires |es| < LAST_INDEX && DoubleTable(es, t) && e != Gap && (e.Double? ==> e.bits !in t)
    ensures DoubleTable(es + Whole(e), if e.Double? then t[e.bits := |es| + 1] else t)
  {
    Appended(es, e);
  }

  ghost predicate Tables(
    es: seq<Entry>, utf8: map<Text, CpIndex>, strings: map<Text, CpIndex>, classes: map<Text, CpIndex>,
    int32s: map<int, CpIndex>, int64s: map<int, CpIndex>, float64s: map<nat, CpIndex>)
  {
    Utf8Table(es, utf8) && StringTable(es, strings) && ClassTable(es, classes) &&
    IntegerTable(es, int32s) && LongTable(es, int64s) && DoubleTable(es, float64s)
  }

  /** Appending an entry whose value is new, and entering it into its table. */
  lemma TablesKept(
    es: seq<Entry>, e: Entry, utf8: map<Text, CpIndex>, strings: map<Text, CpIndex>, classes: map<Text, CpIndex>,
    int32s: map<int, CpIndex>, int64s: map<int, CpIndex>, float64s: map<nat, CpIndex>)
    requires |es| < LAST_INDEX && Tables(es, utf8, strings, classes, int32s, int64s, float64s) && e != Gap
    requires e.Utf8? ==> e.s !in utf8
    requires e.Str? ==> Utf8At(es, e.text).Some? && Utf8At(es, e.text).value !in strings
    requires e.ClassName? ==> Utf8At(es, e.name).Some? && Utf8At(es, e.name).value !in classes
    requires e.Integer? ==> e.i !in int32s
    requires e.Long? ==> e.l !in int64s
    requires e.Double? ==> e.bits !in float64s
    ensures Tables(es + Whole(e),
                   if e.Utf8? then utf8[e.s := |es| + 1] else utf8,
                   if e.Str? then strings[Utf8At(es, e.text).value := |es| + 1] else strings,
                   if e.ClassName? then classes[Utf8At(es, e.name).value := |es| + 1] else classes,
                   if e.Integer? then int32s[e.i := |es| + 1] else int32s,
                   if e.Long? then int64s[e.l := |es| + 1] else int64s,
                   if e.Double? then float64s[e.bits := |es| + 1] else float64s)
  {
    hide Utf8Table, StringTable, ClassTable, IntegerTable, LongTable, DoubleTable, Utf8At, Whole;
    Utf8Kept(es, e, utf8);
    StringKept(es, e, strings);
    ClassKept(es, e, classes);
    IntegerKept(es, e, int32s);
    LongKept(es, e, int64s);
    DoubleKept(es, e, float64s);
  }

  lemma FindString(es: seq<Entry>, t: map<Text, CpIndex>, v: Text)
    requires StringTable(es, t) && v in t
    ensures StringAt(es, t[v]) == Some(v)
  {
  }

  lemma FindClass(es: seq<Entry>, t: map<Text, CpIndex>, v: Text)
    requires ClassTable(es, t) && v in t
    ensures ClassAt(es, t[v]) == Some(v)
  {
  }

  lemma NamesKept(before: seq<Entry>, after: seq<Entry>, names: map<Text, CpIndex>)
    requires Extends(after, before) && forall v :: v in names ==> Utf8At(before, names[v]) == Some(v)
    ensures forall v :: v in names ==> Utf8At(after, names[v]) == Some(v)
  {
  }

  /** No value is stored twice. */
  lemma StoredOnce(
    es: seq<Entry>, utf8: map<Text, CpIndex>, strings: map<Text, CpIndex>, classes: map<Text, CpIndex>,
    int32s: map<int, CpIndex>, int64s: map<int, CpIndex>, float64s: map<nat, CpIndex>, p: nat, q: nat)
    requires Tables(es, utf8, strings, classes, int32s, int64s, float64s)
    requires p < |es| && q < |es| && es[p] == es[q] != Gap && !es[p].Single?
    ensures p == q
  {
  }

  // ----------------------------------------------------------------- builder

  class CpBuilder {
    var entries: seq<Entry>
    var utf8: map<Text, CpIndex>
    var strings: map<Text, CpIndex>
    var classes: map<Text, CpIndex>
    var int32s: map<int, CpIndex>
    var int64s: map<int, CpIndex>
    var float64s: map<nat, CpIndex>
    var attributeNames: map<Text, CpIndex>

    constructor ()
      ensures Valid() && entries == [] && attributeNames == map[]
    {
      entries := [];
      utf8, strings, classes, attributeNames := map[], map[], map[], map[];
      int32s, int64s, float64s := map[], map[], map[];
    }

    /** The tables say where each value is, as long as indices do not wrap. */
    ghost predicate Valid()
      reads this
    {
      Paired(entries) &&
      (|entries| <= LAST_INDEX ==>
         Tables(entries, utf8, strings, classes, int32s, int64s, float64s) &&
         forall v :: v in attributeNames ==> Utf8At(entries, attributeNames[v]) == Some(v))
    }

    /** Nothing that was there has changed. */
    twostate predicate Grown()
      reads this
    {
      Extends(entries, old(entries)) &&
      (forall v :: v in old(attributeNames) ==> v in attributeNames && attributeNames[v] == old(attributeNames[v]))
    }

    method Add(entry: Entry) returns (index: CpIndex)
      requires entry != Gap && Fits(entry) && Paired(entries)
      modifies this`entries
      ensures entries == old(entries) + Whole(entry) && Paired(entries)
      ensures Extends(entries, old(entries)) && |old(entries)| < |entries|
      ensures index == (|old(entries)| + 1) % U16
      ensures EntryAt(entries, |old(entries)| + 1) == Some(entry)
    {
      AppendedWell(entries, entry);
      Appended(entries, entry);
      entries := entries + [entry];
      index := |entries| % U16;
      if Wide(entry) { entries := entries + [Gap]; }
      assert entries == old(entries) + Whole(entry);
    }

    method AddUtf8(v: Text) returns (index: CpIndex)
      requires Valid()
      modifies this`entries, this`utf8
      ensures Valid() && Grown()
      ensures |entries| <= LAST_INDEX ==> Utf8At(entries, index) == Some(v)
      ensures v in old(utf8) ==> entries == old(entries) && index == old(utf8[v])
      ensures v in utf8
    {
      hide StringTable, ClassTable, IntegerTable, LongTable, DoubleTable, Paired, Fits;
      if v in utf8 { return utf8[v]; }
      ghost var es, t := entries, utf8;
      index := Add(Utf8(v));
      utf8 := utf8[v := index];
      if |entries| <= LAST_INDEX {
        TablesKept(es, Utf8(v), t, strings, classes, int32s, int64s, float64s);
        NamesKept(es, entries, attributeNames);
      }
    }

    method AddString(v: Text) returns (index: CpIndex)
      requires Valid()
      modifies this`entries, this`utf8, this`strings
      ensures Valid() && Grown()
      ensures |entries| <= LAST_INDEX ==> StringAt(entries, index) == Some(v)
      ensures v in old(strings) ==> entries == old(entries) && index == old(strings[v])
      ensures v in strings
    {
      hide Utf8Table, StringTable, ClassTable, IntegerTable, LongTable, DoubleTable, Paired, Fits, EntryAt;
      if v in strings {
        if |entries| <= LAST_INDEX { FindString(entries, strings, v); }
        return strings[v];
      }
      var text := AddUtf8(v);
      ghost var es, t := entries, strings;
      index := Add(Str(text));
      strings := strings[v := index];
      if |entries| <= LAST_INDEX {
        TablesKept(es, Str(text), utf8, t, classes, int32s, int64s, float64s);
        NamesKept(es, entries, attributeNames);
        FindString(entries, strings, v);
      }
    }

    method AddClass(v: Text) returns (index: CpIndex)
      requires Valid()
      modifies this`entries, this`utf8, this`classes
      ensures Valid() && Grown()
      ensures |entries| <= LAST_INDEX ==> ClassAt(entries, index) == Some(v)
      ensures v in old(classes) ==> entries == old(entries) && index == old(classes[v])
      ensures v in classes
    {
      hide Utf8Table, StringTable, ClassTable, IntegerTable, LongTable, DoubleTable, Paired, Fits, EntryAt;
      if v in classes {
        if |entries| <= LAST_INDEX { FindClass(entries, classes, v); }
        return classes[v];
      }
      var text := AddUtf8(v);
      ghost var es, t := entries, classes;
      index := Add(ClassName(text));
      classes := classes[v := index];
      if |entries| <= LAST_INDEX {
        TablesKept(es, ClassName(text), utf8, strings, t, int32s, int64s, float64s);
        NamesKept(es, entries, attributeNames);
        FindClass(entries, classes, v);
      }
    }

    method AddInt32(v: int) returns (index: CpIndex)
      requires Valid() && Fits(Integer(v))
      modifies this`entries, this`int32s
      ensures Valid() && Grown()
      ensures |entries| <= LAST_INDEX ==> IntegerAt(entries, index) == Some(v)
      ensures v in old(int32s) ==> entries == old(entries) && index == old(int32s[v])
      ensures v in int32s
    {
      hide Utf8Table, StringTable, ClassTable, LongTable, DoubleTable, Paired, Fits;
      if v in int32s { return int32s[v]; }
      ghost var es, t := entries, int32s;
      index := Add(Integer(v));
      int32s := int32s[v := index];
      if |entries| <= LAST_INDEX {
        TablesKept(es, Integer(v), utf8, strings, classes, t, int64s, float64s);
        NamesKept(es, entries, attributeNames);
      }
    }

    method AddInt64(v: int) returns (index: CpIndex)
      requires Valid() && Fits(Long(v))
      modifies this`entries, this`int64s
      ensures Valid() && Grown()
      ensures |entries| <= LAST_INDEX ==> LongAt(entries, index) == Some(v)
      ensures v in old(int64s) ==> entries == old(entries) && index == old(int64s[v])
      ensures v in int64s
    {
      hide Utf8Table, StringTable, ClassTable, IntegerTable, DoubleTable, Paired, Fits;
      if v in int64s { return int64s[v]; }
      ghost var es, t := entries, int64s;
      index := Add(Long(v));
      int64s := int64s[v := index];
      if |entries| <= LAST_INDEX {
        TablesKept(es, Long(v), utf8, strings, classes, int32s, t, float64s);
        NamesKept(es, entries, attributeNames);
      }
    }

    method AddFloat64(v: nat) returns (index: CpIndex)
      requires Valid() && Fits(Double(v))
      modifies this`entries, this`float64s
      ensures Valid() && Grown()
      ensures |entries| <= LAST_INDEX ==> DoubleAt(entries, index) == Some(v)
      ensures v in old(float64s) ==> entries == old(entries) && index == old(float64s[v])
      ensures v in float64s
    {
      hide Utf8Table, StringTable, ClassTable, IntegerTable, LongTable, Paired, Fits;
      if v in float64s { return float64s[v]; }
      ghost var es, t := entries, float64s;
      index := Add(Double(v));
      float64s := float64s[v := index];
      if |entries| <= LAST_INDEX {
        TablesKept(es, Double(v), utf8, strings, classes, int32s, int64s, t);
        NamesKept(es, entries, attributeNames);
      }
    }

    method AttributeName(v: Text) returns (index: CpIndex)
      requires Valid()
      modifies this`entries, this`utf8, this`attributeNames
      ensures Valid() && Grown() && v in attributeNames
      ensures |entries| <= LAST_INDEX ==> Utf8At(entries, index) == Some(v)
      ensures v in old(attributeNames) ==> entries == old(entries) && index == old(attributeNames[v])
    {
      if v in attributeNames { return attributeNames[v]; }
      index := AddUtf8(v);
      attributeNames := attributeNames[v := index];
    }
  }
}
