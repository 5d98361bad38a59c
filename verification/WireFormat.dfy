/** Byte formats put together from parts: every part is written and read, and
    what is read back is what was written if and only if no count wraps. */
module WireFormats {
  import opened Options
  import opened Machine
  import opened ConstantPools
  import opened Spelling

  /** How a value is written, None if it cannot be; how one is read; and whether
      its counts and numbers fit their fields. */
  datatype Codec<!T> = Codec(
    write: T -> Option<seq<byte>>, read: (seq<byte>, nat) -> Option<Read<T>>, fits: T -> bool)

  /** Where x was written, it is read back, and reading stops right behind it, if
      and only if it fits. */
  ghost predicate Exact<T(!new)>(c: Codec<T>) {
    forall x: T, s: seq<byte>, pos: nat :: Reads(c, x, s, pos)
  }

  ghost predicate Reads<T>(c: Codec<T>, x: T, s: seq<byte>, pos: nat) {
    c.write(x).Some? && At(s, pos, c.write(x).value) ==>
      if c.fits(x) then c.read(s, pos) == Some(Read(x, pos + |c.write(x).value|))
      else c.read(s, pos).None? || c.read(s, pos).value.value != x
  }

  // ------------------------------------------------------------------ numbers

  /** The low n bytes of a number. */
  function Cut(v: nat, n: nat): nat { v % Power(n) }

  lemma CutFits(v: nat, n: nat)
    ensures Cut(v, n) < Power(n) && (Cut(v, n) == v <==> v < Power(n))
  {
    hide Power;
    var p := Power(n);
    if v < p { assert v % p == v; }
  }

  function Uint(n: nat): Codec<nat> {
    Codec(v => Some(BigEndian(Cut(v, n), n)), (s, pos) => ReadNumber(s, pos, n), v => v < Power(n))
  }

  lemma UintExact(n: nat)
    ensures Exact(Uint(n))
  {
    var c := Uint(n);
    forall v: nat, s: seq<byte>, pos: nat ensures Reads(c, v, s, pos) {
      hide BigEndian, At, ReadNumber, Cut, Power;
      CutFits(v, n);
      if At(s, pos, BigEndian(Cut(v, n), n)) { NumberThere(s, pos, Cut(v, n), n); }
    }
  }

  lemma NumberThere(s: seq<byte>, pos: nat, v: nat, n: nat)
    requires v < Power(n) && At(s, pos, BigEndian(v, n))
    ensures ReadNumber(s, pos, n) == Some(Read(v, pos + n))
  {
    hide BigEndian, BytesValue, Power, At;
    NumberWritten(v, n);
    TextRead(s, pos, BigEndian(v, n));
  }

  // -------------------------------------------------------------------- texts

  /** writeUTF8: longer texts are an error. */
  function WriteText(t: Text): Option<seq<byte>> { if |t| < U16 then Some(BigEndian(|t|, 2) + t) else None }

  function ReadText(s: seq<byte>, pos: nat): Option<Read<Text>> {
    match ReadNumber(s, pos, 2)
    case None => None
    case Some(n) => ReadBytes(s, n.next, n.value)
  }

  const TEXT: Codec<Text> := Codec(t => WriteText(t), (s, pos) => ReadText(s, pos), t => true)

  lemma TextExact()
    ensures Exact(TEXT)
  {
    forall t: Text, s: seq<byte>, pos: nat ensures Reads(TEXT, t, s, pos) {
      hide BigEndian, Power, At, ReadNumber;
      Powers();
      if |t| < U16 && At(s, pos, BigEndian(|t|, 2) + t) {
        AtJoined(s, pos, BigEndian(|t|, 2), t);
        NumberThere(s, pos, |t|, 2);
        TextRead(s, pos + 2, t);
      }
    }
  }

  // ---------------------------------------------------------------- sequences

  function WriteBoth<A, B>(a: Codec<A>, b: Codec<B>, p: (A, B)): Option<seq<byte>> {
    match a.write(p.0)
    case None => None
    case Some(x) =>
      match b.write(p.1)
      case None => None
      case Some(y) => Some(x + y)
  }

  function ReadBoth<A, B>(a: Codec<A>, b: Codec<B>, s: seq<byte>, pos: nat): Option<Read<(A, B)>> {
    match a.read(s, pos)
    case None => None
    case Some(x) =>
      match b.read(s, x.next)
      case None => None
      case Some(y) => Some(Read((x.value, y.value), y.next))
  }

  /** One behind the other. */
  function Both<A, B>(a: Codec<A>, b: Codec<B>): Codec<(A, B)> {
    Codec(p => WriteBoth(a, b, p), (s, pos) => ReadBoth(a, b, s, pos), (p: (A, B)) => a.fits(p.0) && b.fits(p.1))
  }

  lemma BothExact<A(!new), B(!new)>(a: Codec<A>, b: Codec<B>)
    requires Exact(a) && Exact(b)
    ensures Exact(Both(a, b))
  {
    var c := Both(a, b);
    forall p: (A, B), s: seq<byte>, pos: nat ensures Reads(c, p, s, pos) {
      hide At;
      if c.write(p).Some? && At(s, pos, c.write(p).value) {
        var x, y := a.write(p.0).value, b.write(p.1).value;
        AtJoined(s, pos, x, y);
        assert Reads(a, p.0, s, pos);
        if a.fits(p.0) { assert Reads(b, p.1, s, pos + |x|); }
      }
    }
  }

  function WriteAll<T>(c: Codec<T>, xs: seq<T>): Option<seq<byte>> {
    if xs == [] then Some([])
    else
      match c.write(xs[0])
      case None => None
      case Some(x) =>
        match WriteAll(c, xs[1..])
        case None => None
        case Some(rest) => Some(x + rest)
  }

  function ReadAll<T>(c: Codec<T>, s: seq<byte>, pos: nat, n: nat): (r: Option<Read<seq<T>>>)
    ensures r.Some? ==> |r.value.value| == n
    decreases n
  {
    if n == 0 then Some(Read([], pos))
    else
      match c.read(s, pos)
      case None => None
      case Some(x) =>
        match ReadAll(c, s, x.next, n - 1)
        case None => None
        case Some(rest) => Some(Read([x.value] + rest.value, rest.next))
  }

  function WriteMany<T>(c: Codec<T>, xs: seq<T>): Option<seq<byte>> {
    match WriteAll(c, xs)
    case None => None
    case Some(b) => Some(BigEndian(Cut(|xs|, 2), 2) + b)
  }

  function ReadMany<T>(c: Codec<T>, s: seq<byte>, pos: nat): Option<Read<seq<T>>> {
    match ReadNumber(s, pos, 2)
    case None => None
    case Some(n) => ReadAll(c, s, n.next, n.value)
  }

  predicate AllFit<T>(c: Codec<T>, xs: seq<T>) { forall k :: 0 <= k < |xs| ==> c.fits(xs[k]) }

  /** A 16-bit count, which wraps, and the items. */
  function Many<T>(c: Codec<T>): Codec<seq<T>> {
    Codec(xs => WriteMany(c, xs), (s, pos) => ReadMany(c, s, pos), xs => |xs| < U16 && AllFit(c, xs))
  }

  lemma {:induction false} AllExact<T(!new)>(c: Codec<T>, xs: seq<T>, s: seq<byte>, pos: nat)
    requires Exact(c) && WriteAll(c, xs).Some? && At(s, pos, WriteAll(c, xs).value)
    ensures if AllFit(c, xs) then ReadAll(c, s, pos, |xs|) == Some(Read(xs, pos + |WriteAll(c, xs).value|))
            else ReadAll(c, s, pos, |xs|).None? || ReadAll(c, s, pos, |xs|).value.value != xs
  {
    hide At;
    if xs != [] {
      var x, rest := c.write(xs[0]).value, WriteAll(c, xs[1..]).value;
      AtJoined(s, pos, x, rest);
      assert Reads(c, xs[0], s, pos);
      AllFitStep(c, xs);
      if c.fits(xs[0]) {
        AllExact(c, xs[1..], s, pos + |x|);
        assert xs == [xs[0]] + xs[1..];
      }
    }
  }

  lemma AllFitStep<T>(c: Codec<T>, xs: seq<T>)
    requires xs != []
    ensures AllFit(c, xs) <==> c.fits(xs[0]) && AllFit(c, xs[1..])
  {
    if c.fits(xs[0]) && AllFit(c, xs[1..]) {
      forall k | 0 <= k < |xs| ensures c.fits(xs[k]) { if k > 0 { assert xs[k] == xs[1..][k - 1]; } }
    }
  }

  lemma ManyReads<T(!new)>(c: Codec<T>, xs: seq<T>, s: seq<byte>, pos: nat)
    requires Exact(c) && WriteMany(c, xs).Some? && At(s, pos, WriteMany(c, xs).value)
    ensures if |xs| < U16 && AllFit(c, xs) then ReadMany(c, s, pos) == Some(Read(xs, pos + |WriteMany(c, xs).value|))
            else ReadMany(c, s, pos).None? || ReadMany(c, s, pos).value.value != xs
  {
    hide At, BigEndian, Power, AllFit, ReadNumber, WriteAll, ReadAll, Cut, Exact;
    Powers();
    CutFits(|xs|, 2);
    AtJoined(s, pos, BigEndian(Cut(|xs|, 2), 2), WriteAll(c, xs).value);
    NumberThere(s, pos, Cut(|xs|, 2), 2);
    if |xs| < U16 { AllExact(c, xs, s, pos + 2); }
  }

  lemma ManyExact<T(!new)>(c: Codec<T>)
    requires Exact(c)
    ensures Exact(Many(c))
  {
    var d := Many(c);
    forall xs: seq<T>, s: seq<byte>, pos: nat ensures Reads(d, xs, s, pos) {
      hide At, AllFit, WriteMany, ReadMany, Exact;
      if d.write(xs).Some? && At(s, pos, d.write(xs).value) { ManyReads(c, xs, s, pos); }
    }
  }

  // ------------------------------------------------------------------- records

  function ReadAs<A, B>(c: Codec<A>, f: A -> B, s: seq<byte>, pos: nat): Option<Read<B>> {
    match c.read(s, pos)
    case None => None
    case Some(x) => Some(Read(f(x.value), x.next))
  }

  /** The same bytes, read as another type. */
  function As<A, B>(c: Codec<A>, f: A -> B, g: B -> A): Codec<B> {
    Codec(x => c.write(g(x)), (s, pos) => ReadAs(c, f, s, pos), x => c.fits(g(x)))
  }

  lemma AsExact<A(!new), B(!new)>(c: Codec<A>, f: A -> B, g: B -> A)
    requires Exact(c) && forall x: B :: f(g(x)) == x
    requires (forall x: B :: c.fits(g(x))) || forall y: A :: g(f(y)) == y
    ensures Exact(As(c, f, g))
  {
    var d := As(c, f, g);
    forall x: B, s: seq<byte>, pos: nat ensures Reads(d, x, s, pos) { assert Reads(c, g(x), s, pos); }
  }

  // ------------------------------------------------------------------ limits

  lemma UintFits(n: nat)
    ensures forall v: nat :: Uint(n).fits(v) <==> v < Power(n)
  {
  }

  lemma BothFits<A(!new), B(!new)>(a: Codec<A>, b: Codec<B>)
    ensures forall p: (A, B) :: Both(a, b).fits(p) <==> a.fits(p.0) && b.fits(p.1)
  {
  }

  lemma ManyFits<T(!new)>(c: Codec<T>)
    ensures forall xs: seq<T> :: Many(c).fits(xs) <==> |xs| < U16 && AllFit(c, xs)
  {
  }

  lemma AsFits<A(!new), B(!new)>(c: Codec<A>, f: A -> B, g: B -> A)
    ensures forall x: B :: As(c, f, g).fits(x) <==> c.fits(g(x))
  {
  }
}
