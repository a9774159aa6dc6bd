/** Loading a saved rule set gives it back, within the arena worked out from the
    header; and when saving reports success, how to tell whether the file is
    complete (src/compiler.c:615-974). */
module FileRoundTrip {
  import opened Words
  import opened Machine
  import opened Precompiled
  import opened RoundTrip
  import opened RuleFile

  // ------------------------------------------------------------------
  // Doubles
  // ------------------------------------------------------------------

  /** A double comes back exactly if it is not negative and a whole number of
      thousandths. */
  lemma DoubleRoundTrip(d: real)
    ensures Reloaded(d) == d <==> d >= 0.0 && (1000.0 * d).Floor as real == 1000.0 * d
  {
    var whole := Whole(d);
    if d >= 0.0 {
      var frac := d - whole as real;
      assert 0.0 <= frac < 1.0;
      assert Thousandths(d) == (1000.0 * frac).Floor;
      FloorShift(1000.0 * frac, 1000 * whole);
      assert 1000.0 * d == 1000.0 * frac + (1000 * whole) as real;
    } else {
      NegativeLost(d);
    }
  }

  lemma FloorShift(x: real, n: int)
    ensures (x + n as real).Floor == x.Floor + n
  {
    var f := x.Floor;
    assert f as real <= x < (f + 1) as real;
    assert (f + n) as real <= x + n as real < (f + n + 1) as real;
  }

  lemma NegativeLost(d: real)
    requires d < 0.0
    ensures Reloaded(d) != d
  {
    var whole := Whole(d);
    assert Thousandths(d) >= 0;
    if whole < 0 {
      var rest := 1000.0 * (-d - whole as real);
      assert rest >= 2000.0;
      assert Thousandths(d) == rest.Floor >= 2000;
      assert Reloaded(d) <= whole as real - 2.0;
      assert d > whole as real - 1.0;
    } else {
      assert Reloaded(d) >= 0.0;
    }
  }

  // ------------------------------------------------------------------
  // What is written
  // ------------------------------------------------------------------

  /** An item that stands for an entry; if `exact`, then with the right string, or the
      right number for the first of a double. */
  ghost predicate Encodes(strings: string, item: Item, e: Entry, exact: bool) {
    match e
    case Number(i) => item == Num(i)
    case Half(i) => item.Num? && (exact ==> item.i == i)
    case Name(s) =>
      item.Num? && 0 <= item.i <= |strings| && (exact ==> HeldAt(strings, item.i, s.GetOr("")) && NoNul(s.GetOr("")))
  }

  ghost predicate AllEncode(strings: string, items: seq<Item>, es: seq<Entry>, exact: bool) {
    |items| == |es| && forall k | 0 <= k < |es| :: Encodes(strings, items[k], es[k], exact)
  }

  lemma EncodeLater(strings: string, more: string, items: seq<Item>, es: seq<Entry>, exact: bool)
    requires AllEncode(strings, items, es, exact) && strings <= more
    ensures AllEncode(more, items, es, exact)
  {
    hide HeldAt, NoNul;
    forall k | 0 <= k < |es| ensures Encodes(more, items[k], es[k], exact) {
      assert Encodes(strings, items[k], es[k], exact);
      if es[k].Name? && exact {
        HeldLater(strings, more, items[k].i, es[k].s.GetOr(""));
      }
    }
  }

  lemma EncodeBoth(strings: string, x: seq<Item>, y: seq<Item>, a: seq<Entry>, b: seq<Entry>, exact: bool)
    requires AllEncode(strings, x, a, exact) && AllEncode(strings, y, b, exact)
    ensures AllEncode(strings, x + y, a + b, exact)
  {
    hide Encodes;
  }

  lemma EncodeSplit(strings: string, items: seq<Item>, a: seq<Entry>, b: seq<Entry>, exact: bool)
    requires AllEncode(strings, items, a + b, exact)
    ensures |items| == |a| + |b| && items == items[..|a|] + items[|a|..]
    ensures AllEncode(strings, items[..|a|], a, exact) && AllEncode(strings, items[|a|..], b, exact)
  {
    hide Encodes;
    assert forall k | 0 <= k < |a| :: (a + b)[k] == a[k];
    assert forall k | 0 <= k < |b| :: (a + b)[|a| + k] == b[k];
  }

  predicate Clean(es: seq<Entry>) {
    forall k | 0 <= k < |es| && es[k].Name? :: NoNul(es[k].s.GetOr(""))
  }

  /** The first number of a double, with no room left for the second. */
  predicate Tight(b: Writer, es: seq<Entry>) {
    es != [] && es[|es| - 1].Half? && b.dsize - b.dused < 4
  }

  /** Writing goes on for as long as there is room, and what is there stays. */
  ghost predicate Written(b: Writer, b1: Writer, es: seq<Entry>) {
    && b.items <= b1.items && b.strings <= b1.strings && b.dsize == b1.dsize
    && var m := |b1.items| - |b.items|;
    && m <= |es|
    && AllEncode(b1.strings, b1.items[|b.items|..], es[..m], b1.error == 0 && !Tight(b1, es))
    && (b.error != 0 ==> b1.error != 0 && m == 0)
    && (b.error == 0 ==> (b1.error == 0 <==> m == |es|))
    && (es == [] ==> b1.dused == b.dused)
    && (es != [] && b.dsize - b.dused < 4 ==> b1.error != 0)
  }

  lemma Loosely(strings: string, items: seq<Item>, es: seq<Entry>, exact: bool)
    requires AllEncode(strings, items, es, exact)
    ensures AllEncode(strings, items, es, false)
  {
    hide HeldAt, NoNul;
    forall k | 0 <= k < |es| ensures Encodes(strings, items[k], es[k], false) {
      assert Encodes(strings, items[k], es[k], exact);
    }
  }

  lemma WrittenBoth(b: Writer, b1: Writer, b2: Writer, x: seq<Entry>, y: seq<Entry>)
    requires Written(b, b1, x) && Written(b1, b2, y)
    ensures Written(b, b2, x + y)
  {
    hide Encodes, AllEncode;
    var m, n := |b1.items| - |b.items|, |b2.items| - |b1.items|;
    var exact := b2.error == 0 && !Tight(b2, x + y);
    var left, right := b1.items[|b.items|..], b2.items[|b1.items|..];
    if !exact {
      Loosely(b1.strings, left, x[..m], b1.error == 0 && !Tight(b1, x));
      Loosely(b2.strings, right, y[..n], b2.error == 0 && !Tight(b2, y));
    }
    EncodeLater(b1.strings, b2.strings, left, x[..m], exact);
    EncodeBoth(b2.strings, left, right, x[..m], y[..n], exact);
    assert b2.items[|b.items|..] == left + right;
    assert (x + y)[..m + n] == x[..m] + y[..n];
  }

  ghost predicate Ready(b: Writer) {
    b.strings != "" && b.strings[0] == '\0'
  }

  lemma ReadyLater(b: Writer, b1: Writer)
    requires Ready(b) && b.strings <= b1.strings
    ensures Ready(b1)
  {
    assert b1.strings[..|b.strings|] == b.strings;
  }

  lemma WrittenEntry(w: Width, b: Writer, e: Entry)
    requires Ready(b) && Clean([e])
    ensures Written(b, PutEntry(w, b, e), [e])
    ensures PutEntry(w, b, e).header == b.header
  {
    hide HeldAt, NoNul, StrAlloc;
    assert [e][0] == e;
    var b1 := PutEntry(w, b, e);
    match e
    case Number(i) =>
    case Half(i) =>
    case Name(s) =>
      WroteStr(w, b, s);
      StrKeeps(w, b, s);
      if b1.error == 0 {
        assert b1.items[|b.items|..] == [Num(OffsetOf(b, s))];
        HeldInside(b1.strings, OffsetOf(b, s), s.GetOr(""));
      }
  }

  lemma HeldInside(strings: string, offs: nat, s: string)
    requires HeldAt(strings, offs, s)
    ensures offs <= |strings|
  {
  }

  lemma StrKeeps(w: Width, b: Writer, s: Option<string>)
    ensures var b1 := PutStr(w, b, s);
            && b.strings <= b1.strings && b.items <= b1.items && b1.header == b.header && b1.dsize == b.dsize
            && (b.dsize - b.dused < 4 ==> b1.error != 0)
            && (b.error != 0 ==> b1 == b)
            && (b1.error != 0 ==> b1.items == b.items)
  {
  }

  lemma {:induction false} WrittenAll(w: Width, b: Writer, es: seq<Entry>)
    requires Ready(b) && Clean(es)
    ensures Written(b, PutAll(w, b, es), es) && PutAll(w, b, es).header == b.header
  {
    hide PutEntry, Encodes;
    if es != [] {
      var init, last := es[..|es| - 1], es[|es| - 1];
      WrittenAll(w, b, init);
      var b1 := PutAll(w, b, init);
      ReadyLater(b, b1);
      assert Clean([last]);
      WrittenEntry(w, b1, last);
      hide Written, Clean;
      WrittenBoth(b, b1, PutAll(w, b, es), init, [last]);
      assert es == init + [last];
    }
  }

  function FactvarsEntries(vs: seq<FactvarImage>): seq<Entry> {
    [Number(|vs|)] + EachFactvar(vs)
  }

  function DresvarsEntries(vs: seq<DresvarImage>): seq<Entry> {
    [Number(|vs|)] + EachDresvar(vs)
  }

  function InitsEntries(inits: seq<InitImage>): seq<Entry> {
    [Number(|inits|)] + EachInit(inits)
  }

  function MethodsEntries(ms: seq<MethodImage>): seq<Entry> {
    [Number(|ms|)] + EachMethod(ms)
  }

  function RestEntries(f: Rest): seq<Entry> {
    FactvarsEntries(f.factvars) + (DresvarsEntries(f.dresvars) + (InitsEntries(f.inits) + MethodsEntries(f.methods)))
  }

  lemma CleanBoth(a: seq<Entry>, b: seq<Entry>)
    ensures Clean(a + b) <==> Clean(a) && Clean(b)
  {
    hide NoNul;
    assert forall k | 0 <= k < |a| :: (a + b)[k] == a[k];
    assert forall k | 0 <= k < |b| :: (a + b)[|a| + k] == b[k];
  }

  lemma WrittenHeader(b: Writer, b1: Writer, es: seq<Entry>, h: Header, h1: Header)
    requires Written(b, b1, es)
    ensures Written(b.(header := h), b1.(header := h1), es)
  {
  }

  lemma WrittenFactvars(w: Width, b: Writer, vs: seq<FactvarImage>)
    requires Ready(b) && Clean(FactvarsEntries(vs))
    ensures Written(b, SaveFactvars(w, b, vs), FactvarsEntries(vs))
  {
    hide PutAll, EachFactvar, Written;
    WrittenAll(w, b, FactvarsEntries(vs));
    WrittenHeader(b, PutAll(w, b, FactvarsEntries(vs)), FactvarsEntries(vs), b.header, SaveFactvars(w, b, vs).header);
  }

  lemma WrittenDresvars(w: Width, b: Writer, vs: seq<DresvarImage>)
    requires Ready(b) && Clean(DresvarsEntries(vs))
    ensures Written(b, SaveDresvars(w, b, vs), DresvarsEntries(vs))
  {
    hide PutAll, EachDresvar, Written;
    WrittenAll(w, b, DresvarsEntries(vs));
    WrittenHeader(b, PutAll(w, b, DresvarsEntries(vs)), DresvarsEntries(vs), b.header, SaveDresvars(w, b, vs).header);
  }

  lemma WrittenInits(w: Width, b: Writer, inits: seq<InitImage>)
    requires Ready(b) && Clean(InitsEntries(inits))
    ensures Written(b, SaveInits(w, b, inits), InitsEntries(inits))
  {
    hide PutAll, EachInit, Written;
    WrittenAll(w, b, InitsEntries(inits));
    WrittenHeader(b, PutAll(w, b, InitsEntries(inits)), InitsEntries(inits), b.header, SaveInits(w, b, inits).header);
  }

  lemma WrittenMethods(w: Width, b: Writer, ms: seq<MethodImage>)
    requires Ready(b) && Clean(MethodsEntries(ms))
    ensures Written(b, SaveMethods(w, b, ms), MethodsEntries(ms))
  {
    hide PutAll, EachMethod, Written;
    WrittenAll(w, b, MethodsEntries(ms));
    WrittenHeader(b, PutAll(w, b, MethodsEntries(ms)), MethodsEntries(ms), b.header, SaveMethods(w, b, ms).header);
  }

  lemma WrittenStrings(b: Writer, b1: Writer, es: seq<Entry>)
    requires Ready(b) && Written(b, b1, es)
    ensures Ready(b1)
  {
    ReadyLater(b, b1);
  }

  /** What the four later sections write, and what they add to the header. */
  lemma WrittenRest(w: Width, b: Writer, f: Rest)
    requires Ready(b) && Clean(RestEntries(f))
    ensures Written(b, SaveRest(w, b, f), RestEntries(f))
    ensures SaveRest(w, b, f).header
         == b.header.(nvariable := b.header.nvariable + |f.factvars| + |f.dresvars|, ninit := |f.inits|,
                      nfield := b.header.nfield + FieldCount(f.inits), nmethod := |f.methods|)
  {
    hide FactvarsEntries, DresvarsEntries, InitsEntries, MethodsEntries, Written, Ready, Clean, PutAll;
    var e1, e2, e3, e4 := FactvarsEntries(f.factvars), DresvarsEntries(f.dresvars), InitsEntries(f.inits),
                          MethodsEntries(f.methods);
    CleanBoth(e1, e2 + (e3 + e4));
    CleanBoth(e2, e3 + e4);
    CleanBoth(e3, e4);
    var b1 := SaveFactvars(w, b, f.factvars);
    WrittenFactvars(w, b, f.factvars);
    WrittenStrings(b, b1, e1);
    var b2 := SaveDresvars(w, b1, f.dresvars);
    WrittenDresvars(w, b1, f.dresvars);
    WrittenStrings(b1, b2, e2);
    var b3 := SaveInits(w, b2, f.inits);
    WrittenInits(w, b2, f.inits);
    WrittenStrings(b2, b3, e3);
    var b4 := SaveMethods(w, b3, f.methods);
    WrittenMethods(w, b3, f.methods);
    WrittenBoth(b2, b3, b4, e3, e4);
    WrittenBoth(b1, b2, b4, e2, e3 + e4);
    WrittenBoth(b, b1, b4, e1, e2 + (e3 + e4));
  }

  // ------------------------------------------------------------------
  // What is read back
  // ------------------------------------------------------------------

  function Given(s: Option<string>): Option<string> {
    Some(s.GetOr(""))
  }

  function NormalFactvar(v: FactvarImage): FactvarImage {
    v.(name := Given(v.name))
  }

  function NormalDresvar(v: DresvarImage): DresvarImage {
    v.(name := Given(v.name))
  }

  function NormalValue(v: InitValue): InitValue {
    match v
    case OfStr(s) => OfStr(Given(s))
    case OfDbl(d) => OfDbl(Reloaded(d))
    case other => other
  }

  function NormalField(f: FieldImage): FieldImage {
    FieldImage(Given(f.name), NormalValue(f.value))
  }

  function NormalInit(i: InitImage): InitImage {
    i.(fields := NormalFields(i.fields))
  }

  function NormalMethod(m: MethodImage): MethodImage {
    m.(name := Given(m.name))
  }

  function NormalFactvars(vs: seq<FactvarImage>): seq<FactvarImage> {
    if vs == [] then [] else NormalFactvars(vs[..|vs| - 1]) + [NormalFactvar(vs[|vs| - 1])]
  }

  function NormalDresvars(vs: seq<DresvarImage>): seq<DresvarImage> {
    if vs == [] then [] else NormalDresvars(vs[..|vs| - 1]) + [NormalDresvar(vs[|vs| - 1])]
  }

  function NormalFields(fs: seq<FieldImage>): seq<FieldImage> {
    if fs == [] then [] else NormalFields(fs[..|fs| - 1]) + [NormalField(fs[|fs| - 1])]
  }

  function NormalInits(inits: seq<InitImage>): seq<InitImage> {
    if inits == [] then [] else NormalInits(inits[..|inits| - 1]) + [NormalInit(inits[|inits| - 1])]
  }

  function NormalMethods(ms: seq<MethodImage>): (r: seq<MethodImage>)
    ensures forall i | 0 <= i < |r| :: r[i].name.Some?
  {
    if ms == [] then [] else NormalMethods(ms[..|ms| - 1]) + [NormalMethod(ms[|ms| - 1])]
  }

  function NormalRest(f: Rest): Rest {
    Rest(NormalFactvars(f.factvars), NormalDresvars(f.dresvars), NormalInits(f.inits), NormalMethods(f.methods))
  }

  /** Values of other types are not taken for one of the four that are written. */
  predicate ProperValue(v: InitValue) {
    v.OfOther? ==> v.tag != TYPE_INTEGER && v.tag != TYPE_LOCAL && v.tag != TYPE_STRING && v.tag != TYPE_DOUBLE
  }

  predicate ProperInits(inits: seq<InitImage>) {
    forall i, j | 0 <= i < |inits| && 0 <= j < |inits[i].fields| :: ProperValue(inits[i].fields[j].value)
  }

  lemma NextStr(r: Reader, item: Item, s: Option<string>, exact: bool, rest: seq<Item>)
    requires r.items == [item] + rest && Encodes(r.strings, item, Name(s), exact)
    ensures GetStr(r).1 == r.(items := rest)
    ensures exact ==> GetStr(r).0 == Given(s)
  {
    hide HeldAt, StringAt, NoNul;
    if exact {
      ReadsBack(r.strings, item.i, s.GetOr(""));
    }
  }

  /** The first entry of several. */
  lemma First(strings: string, items: seq<Item>, es: seq<Entry>, rest: seq<Item>, exact: bool)
    requires es != [] && AllEncode(strings, items, es, exact)
    ensures Encodes(strings, items[0], es[0], exact) && AllEncode(strings, items[1..], es[1..], exact)
    ensures items + rest == [items[0]] + (items[1..] + rest)
  {
    hide Encodes;
  }

  lemma FactvarReads(r: Reader, v: FactvarImage, items: seq<Item>, rest: seq<Item>, exact: bool)
    requires r.items == items + rest && AllEncode(r.strings, items, FactvarEntries(v), exact)
    ensures GetFactvar(r).1 == r.(items := rest)
    ensures exact ==> GetFactvar(r).0 == NormalFactvar(v)
  {
    hide Encodes, GetStr, GetNum;
    var es := FactvarEntries(v);
    First(r.strings, items, es, rest, exact);
    IsNumber(r.strings, items[0], v.id, exact);
    ReadNum(r, v.id, items[1..] + rest);
    First(r.strings, items[1..], es[1..], rest, exact);
    NextStr(r.(items := items[1..] + rest), items[1..][0], v.name, exact, items[1..][1..] + rest);
    First(r.strings, items[1..][1..], es[1..][1..], rest, exact);
    IsNumber(r.strings, items[1..][1..][0], v.flags, exact);
    ReadNum(r.(items := items[1..][1..] + rest), v.flags, items[1..][1..][1..] + rest);
    assert items[1..][1..][1..] + rest == rest;
  }

  lemma IsNumber(strings: string, item: Item, i: int, exact: bool)
    requires Encodes(strings, item, Number(i), exact)
    ensures item == Num(i)
  {
  }

  lemma IsHalf(strings: string, item: Item, i: int, exact: bool)
    requires Encodes(strings, item, Half(i), exact)
    ensures item.Num? && (exact ==> item.i == i)
  {
  }

  lemma {:induction false} FactvarsRead(r: Reader, vs: seq<FactvarImage>, items: seq<Item>, rest: seq<Item>,
                                        exact: bool)
    requires r.items == items + rest && AllEncode(r.strings, items, EachFactvar(vs), exact)
    ensures GetFactvars(r, |vs|).1 == r.(items := rest)
    ensures exact ==> GetFactvars(r, |vs|).0 == NormalFactvars(vs)
  {
    hide GetFactvar, FactvarEntries, NormalFactvar, Encodes;
    if vs == [] {
      assert r.items == rest;
    } else {
      var init, last := vs[..|vs| - 1], vs[|vs| - 1];
      var k := |EachFactvar(init)|;
      EncodeSplit(r.strings, items, EachFactvar(init), FactvarEntries(last), exact);
      assert r.items == items[..k] + (items[k..] + rest);
      FactvarsRead(r, init, items[..k], items[k..] + rest, exact);
      FactvarReads(r.(items := items[k..] + rest), last, items[k..], rest, exact);
    }
  }

  lemma DresvarReads(r: Reader, v: DresvarImage, items: seq<Item>, rest: seq<Item>, exact: bool)
    requires r.items == items + rest && AllEncode(r.strings, items, DresvarEntries(v), exact)
    ensures GetDresvar(r).1 == r.(items := rest)
    ensures exact ==> GetDresvar(r).0 == NormalDresvar(v)
  {
    hide Encodes, GetStr, GetNum;
    var es := DresvarEntries(v);
    First(r.strings, items, es, rest, exact);
    IsNumber(r.strings, items[0], v.id, exact);
    ReadNum(r, v.id, items[1..] + rest);
    First(r.strings, items[1..], es[1..], rest, exact);
    NextStr(r.(items := items[1..] + rest), items[1..][0], v.name, exact, items[1..][1..] + rest);
    assert items[1..][1..] + rest == rest;
  }

  lemma {:induction false} DresvarsRead(r: Reader, vs: seq<DresvarImage>, items: seq<Item>, rest: seq<Item>,
                                        exact: bool)
    requires r.items == items + rest && AllEncode(r.strings, items, EachDresvar(vs), exact)
    ensures GetDresvars(r, |vs|).1 == r.(items := rest)
    ensures exact ==> GetDresvars(r, |vs|).0 == NormalDresvars(vs)
  {
    hide GetDresvar, DresvarEntries, NormalDresvar, Encodes;
    if vs == [] {
      assert r.items == rest;
    } else {
      var init, last := vs[..|vs| - 1], vs[|vs| - 1];
      var k := |EachDresvar(init)|;
      EncodeSplit(r.strings, items, EachDresvar(init), DresvarEntries(last), exact);
      assert r.items == items[..k] + (items[k..] + rest);
      DresvarsRead(r, init, items[..k], items[k..] + rest, exact);
      DresvarReads(r.(items := items[k..] + rest), last, items[k..], rest, exact);
    }
  }

  lemma MethodReads(r: Reader, m: MethodImage, items: seq<Item>, rest: seq<Item>, exact: bool)
    requires r.items == items + rest && AllEncode(r.strings, items, MethodEntries(m), exact)
    ensures GetMethod(r).1 == r.(items := rest)
    ensures exact ==> GetMethod(r).0 == NormalMethod(m)
  {
    hide Encodes, GetStr, GetNum;
    var es := MethodEntries(m);
    First(r.strings, items, es, rest, exact);
    IsNumber(r.strings, items[0], m.id, exact);
    ReadNum(r, m.id, items[1..] + rest);
    First(r.strings, items[1..], es[1..], rest, exact);
    NextStr(r.(items := items[1..] + rest), items[1..][0], m.name, exact, items[1..][1..] + rest);
    assert items[1..][1..] + rest == rest;
  }

  lemma {:induction false} MethodsRead(r: Reader, ms: seq<MethodImage>, items: seq<Item>, rest: seq<Item>, exact: bool)
    requires r.items == items + rest && AllEncode(r.strings, items, EachMethod(ms), exact)
    ensures GetMethods(r, |ms|).1 == r.(items := rest)
    ensures exact ==> GetMethods(r, |ms|).0 == NormalMethods(ms)
  {
    hide GetMethod, MethodEntries, NormalMethod, Encodes;
    if ms == [] {
      assert r.items == rest;
    } else {
      var init, last := ms[..|ms| - 1], ms[|ms| - 1];
      var k := |EachMethod(init)|;
      EncodeSplit(r.strings, items, EachMethod(init), MethodEntries(last), exact);
      assert r.items == items[..k] + (items[k..] + rest);
      MethodsRead(r, init, items[..k], items[k..] + rest, exact);
      MethodReads(r.(items := items[k..] + rest), last, items[k..], rest, exact);
    }
  }

  lemma ValueReads(r: Reader, v: InitValue, items: seq<Item>, rest: seq<Item>, exact: bool)
    requires r.items == items + rest && AllEncode(r.strings, items, Payload(v), exact) && ProperValue(v)
    ensures GetValue(r, Tag(v)).1 == r.(items := rest)
    ensures exact ==> GetValue(r, Tag(v)).0 == NormalValue(v)
  {
    hide Encodes, GetStr, Whole, Thousandths, FromParts;
    if v.OfOther? {
      assert r.items == rest;
    } else {
      First(r.strings, items, Payload(v), rest, exact);
      if !v.OfDbl? {
        assert items[1..] + rest == rest;
      }
      match v
      case OfStr(s) => NextStr(r, items[0], s, exact, items[1..] + rest);
      case OfInt(i) => IsNumber(r.strings, items[0], i, exact);
      case OfDresVar(i) => IsNumber(r.strings, items[0], i, exact);
      case OfDbl(d) =>
        IsHalf(r.strings, items[0], Whole(d), exact);
        First(r.strings, items[1..], Payload(v)[1..], rest, exact);
        IsNumber(r.strings, items[1..][0], Thousandths(d), exact);
        ReadNum(r, items[0].i, items[1..] + rest);
        ReadNum(r.(items := items[1..] + rest), Thousandths(d), items[1..][1..] + rest);
        assert items[1..][1..] + rest == rest;
    }
  }

  lemma FieldReads(w: Width, r: Reader, f: FieldImage, items: seq<Item>, rest: seq<Item>, exact: bool)
    requires r.items == items + rest && AllEncode(r.strings, items, FieldEntries(f), exact) && ProperValue(f.value)
    requires r.error == 0 && r.dused + SizeField(w) <= r.dsize
    ensures LoadField(w, r).Got? && LoadField(w, r).r == r.(items := rest, dused := r.dused + SizeField(w))
    ensures exact ==> LoadField(w, r).val == NormalField(f)
  {
    hide Encodes, GetStr, GetNum, GetValue, Payload, NormalValue, ProperValue, Tag;
    var es := FieldEntries(f);
    var r1 := r.(dused := r.dused + SizeField(w));
    First(r.strings, items, es, rest, exact);
    NextStr(r1, items[0], f.name, exact, items[1..] + rest);
    First(r.strings, items[1..], es[1..], rest, exact);
    IsNumber(r.strings, items[1..][0], Tag(f.value), exact);
    ReadNum(r1.(items := items[1..] + rest), Tag(f.value), items[1..][1..] + rest);
    assert es[1..][1..] == Payload(f.value);
    ValueReads(r1.(items := items[1..][1..] + rest), f.value, items[1..][1..], rest, exact);
  }

  lemma {:induction false} FieldsRead(w: Width, r: Reader, fs: seq<FieldImage>, items: seq<Item>, rest: seq<Item>,
                                      exact: bool)
    requires r.items == items + rest && AllEncode(r.strings, items, EachField(fs), exact)
    requires forall j | 0 <= j < |fs| :: ProperValue(fs[j].value)
    requires r.error == 0 && r.dused + SizeField(w) * |fs| <= r.dsize
    ensures LoadFields(w, r, |fs|).Got?
    ensures LoadFields(w, r, |fs|).r == r.(items := rest, dused := r.dused + SizeField(w) * |fs|)
    ensures exact ==> LoadFields(w, r, |fs|).val == NormalFields(fs)
  {
    hide LoadField, FieldEntries, NormalField, Encodes, ProperValue;
    if fs == [] {
      assert r.items == rest;
    } else {
      var init, last := fs[..|fs| - 1], fs[|fs| - 1];
      var k := |EachField(init)|;
      EncodeSplit(r.strings, items, EachField(init), FieldEntries(last), exact);
      assert r.items == items[..k] + (items[k..] + rest);
      FieldsRead(w, r, init, items[..k], items[k..] + rest, exact);
      var r1 := r.(items := items[k..] + rest, dused := r.dused + SizeField(w) * |init|);
      FieldReads(w, r1, last, items[k..], rest, exact);
    }
  }

  function InitArena(w: Width, i: InitImage): nat {
    SizeInitializer(w) + SizeField(w) * |i.fields|
  }

  lemma InitReads(w: Width, r: Reader, i: InitImage, items: seq<Item>, rest: seq<Item>, exact: bool)
    requires r.items == items + rest && AllEncode(r.strings, items, InitEntries(i), exact)
    requires forall j | 0 <= j < |i.fields| :: ProperValue(i.fields[j].value)
    requires r.error == 0 && r.dused + InitArena(w, i) <= r.dsize
    ensures LoadInit(w, r).Got? && LoadInit(w, r).r == r.(items := rest, dused := r.dused + InitArena(w, i))
    ensures exact ==> LoadInit(w, r).val == NormalInit(i)
  {
    hide Encodes, GetNum, LoadFields, EachField, NormalFields, ProperValue, SizeField;
    var es := InitEntries(i);
    var r1 := r.(dused := r.dused + SizeInitializer(w));
    First(r.strings, items, es, rest, exact);
    IsNumber(r.strings, items[0], i.variable, exact);
    ReadNum(r1, i.variable, items[1..] + rest);
    First(r.strings, items[1..], es[1..], rest, exact);
    IsNumber(r.strings, items[1..][0], |i.fields|, exact);
    ReadNum(r1.(items := items[1..] + rest), |i.fields|, items[1..][1..] + rest);
    assert es[1..][1..] == EachField(i.fields);
    FieldsRead(w, r1.(items := items[1..][1..] + rest), i.fields, items[1..][1..], rest, exact);
  }

  function InitsArena(w: Width, inits: seq<InitImage>): nat {
    if inits == [] then 0 else InitsArena(w, inits[..|inits| - 1]) + InitArena(w, inits[|inits| - 1])
  }

  lemma {:induction false} InitsRead(w: Width, r: Reader, inits: seq<InitImage>, items: seq<Item>, rest: seq<Item>,
                                     exact: bool)
    requires r.items == items + rest && AllEncode(r.strings, items, EachInit(inits), exact) && ProperInits(inits)
    requires r.error == 0 && r.dused + InitsArena(w, inits) <= r.dsize
    ensures LoadInitsFrom(w, r, |inits|).Got?
    ensures LoadInitsFrom(w, r, |inits|).r == r.(items := rest, dused := r.dused + InitsArena(w, inits))
    ensures exact ==> LoadInitsFrom(w, r, |inits|).val == NormalInits(inits)
  {
    hide LoadInit, InitEntries, NormalInit, Encodes, InitArena, ProperValue;
    if inits == [] {
      assert r.items == rest;
    } else {
      var init, last := inits[..|inits| - 1], inits[|inits| - 1];
      var k := |EachInit(init)|;
      EncodeSplit(r.strings, items, EachInit(init), InitEntries(last), exact);
      assert r.items == items[..k] + (items[k..] + rest);
      assert ProperInits(init) && forall j | 0 <= j < |last.fields| :: ProperValue(last.fields[j].value);
      InitsRead(w, r, init, items[..k], items[k..] + rest, exact);
      var r1 := r.(items := items[k..] + rest, dused := r.dused + InitsArena(w, init));
      InitReads(w, r1, last, items[k..], rest, exact);
    }
  }

  /** What loading the later sections takes from the arena. */
  function RestArena(w: Width, f: Rest): nat {
    |f.factvars| * SizeVariable(w) + |f.dresvars| * SizeVariable(w) + InitsArena(w, f.inits)
    + |f.methods| * SizeMethod(w)
  }

  lemma LoadsFactvars(w: Width, r: Reader, vs: seq<FactvarImage>, items: seq<Item>, rest: seq<Item>, exact: bool)
    requires r.items == items + rest && AllEncode(r.strings, items, FactvarsEntries(vs), exact)
    requires r.error == 0 && r.dused + |vs| * SizeVariable(w) <= r.dsize
    ensures LoadFactvars(w, r).Got?
    ensures LoadFactvars(w, r).r == r.(items := rest, dused := r.dused + |vs| * SizeVariable(w))
    ensures exact ==> LoadFactvars(w, r).val == NormalFactvars(vs)
  {
    hide Encodes, GetNum, GetFactvars, EachFactvar, NormalFactvars, SizeVariable;
    First(r.strings, items, FactvarsEntries(vs), rest, exact);
    IsNumber(r.strings, items[0], |vs|, exact);
    ReadNum(r, |vs|, items[1..] + rest);
    assert FactvarsEntries(vs)[1..] == EachFactvar(vs);
    FactvarsRead(r.(items := items[1..] + rest, dused := r.dused + |vs| * SizeVariable(w)), vs, items[1..], rest,
                 exact);
  }

  lemma LoadsDresvars(w: Width, r: Reader, vs: seq<DresvarImage>, items: seq<Item>, rest: seq<Item>, exact: bool)
    requires r.items == items + rest && AllEncode(r.strings, items, DresvarsEntries(vs), exact)
    requires r.error == 0 && r.dused + |vs| * SizeVariable(w) <= r.dsize
    ensures LoadDresvars(w, r).Got?
    ensures LoadDresvars(w, r).r == r.(items := rest, dused := r.dused + |vs| * SizeVariable(w))
    ensures exact ==> LoadDresvars(w, r).val == NormalDresvars(vs)
  {
    hide Encodes, GetNum, GetDresvars, EachDresvar, NormalDresvars, SizeVariable;
    First(r.strings, items, DresvarsEntries(vs), rest, exact);
    IsNumber(r.strings, items[0], |vs|, exact);
    ReadNum(r, |vs|, items[1..] + rest);
    assert DresvarsEntries(vs)[1..] == EachDresvar(vs);
    DresvarsRead(r.(items := items[1..] + rest, dused := r.dused + |vs| * SizeVariable(w)), vs, items[1..], rest,
                 exact);
  }

  lemma LoadsInits(w: Width, r: Reader, inits: seq<InitImage>, items: seq<Item>, rest: seq<Item>, exact: bool)
    requires r.items == items + rest && AllEncode(r.strings, items, InitsEntries(inits), exact) && ProperInits(inits)
    requires r.error == 0 && r.dused + InitsArena(w, inits) <= r.dsize
    ensures LoadInits(w, r).Got?
    ensures LoadInits(w, r).r == r.(items := rest, dused := r.dused + InitsArena(w, inits))
    ensures exact ==> LoadInits(w, r).val == NormalInits(inits)
  {
    hide Encodes, GetNum, LoadInitsFrom, EachInit, NormalInits, ProperInits, InitsArena;
    First(r.strings, items, InitsEntries(inits), rest, exact);
    IsNumber(r.strings, items[0], |inits|, exact);
    ReadNum(r, |inits|, items[1..] + rest);
    assert InitsEntries(inits)[1..] == EachInit(inits);
    InitsRead(w, r.(items := items[1..] + rest), inits, items[1..], rest, exact);
  }

  lemma LoadsMethods(w: Width, r: Reader, ms: seq<MethodImage>, items: seq<Item>, rest: seq<Item>, exact: bool)
    requires r.items == items + rest && AllEncode(r.strings, items, MethodsEntries(ms), exact)
    requires r.error == 0 && r.dused + |ms| * SizeMethod(w) <= r.dsize
    ensures LoadMethods(w, r).Got?
    ensures LoadMethods(w, r).r == r.(items := rest, dused := r.dused + |ms| * SizeMethod(w))
    ensures exact ==> LoadMethods(w, r).val == NormalMethods(ms)
  {
    hide Encodes, GetNum, GetMethods, EachMethod, NormalMethods, SizeMethod;
    First(r.strings, items, MethodsEntries(ms), rest, exact);
    IsNumber(r.strings, items[0], |ms|, exact);
    ReadNum(r, |ms|, items[1..] + rest);
    assert MethodsEntries(ms)[1..] == EachMethod(ms);
    MethodsRead(r.(items := items[1..] + rest, dused := r.dused + |ms| * SizeMethod(w)), ms, items[1..], rest, exact);
  }

  /** Reading the later sections back: nothing fails, and if the strings are the right
      ones, then everything is as it was. */
  lemma RestReads(w: Width, r: Reader, f: Rest, items: seq<Item>, exact: bool)
    requires r.items == items && AllEncode(r.strings, items, RestEntries(f), exact) && ProperInits(f.inits)
    requires r.error == 0 && r.dused + RestArena(w, f) <= r.dsize
    ensures LoadRest(w, r).Got?
    ensures LoadRest(w, r).r == r.(items := [], dused := r.dused + RestArena(w, f))
    ensures exact ==> LoadRest(w, r).val == NormalRest(f)
  {
    hide Encodes, LoadFactvars, LoadDresvars, LoadInits, LoadMethods, FactvarsEntries, DresvarsEntries, InitsEntries,
         MethodsEntries, NormalFactvars, NormalDresvars, NormalInits, NormalMethods, ProperInits, SizeVariable,
         SizeMethod, InitsArena, AllEncode;
    var e1, e2, e3, e4 := FactvarsEntries(f.factvars), DresvarsEntries(f.dresvars), InitsEntries(f.inits),
                          MethodsEntries(f.methods);
    EncodeSplit(r.strings, items, e1, e2 + (e3 + e4), exact);
    var items2 := items[|e1|..];
    EncodeSplit(r.strings, items2, e2, e3 + e4, exact);
    var items3 := items2[|e2|..];
    EncodeSplit(r.strings, items3, e3, e4, exact);
    var items4 := items3[|e3|..];
    LoadsFactvars(w, r, f.factvars, items[..|e1|], items2, exact);
    var r1 := r.(items := items2, dused := r.dused + |f.factvars| * SizeVariable(w));
    LoadsDresvars(w, r1, f.dresvars, items2[..|e2|], items3, exact);
    var r2 := r1.(items := items3, dused := r1.dused + |f.dresvars| * SizeVariable(w));
    LoadsInits(w, r2, f.inits, items3[..|e3|], items4, exact);
    var r3 := r2.(items := items4, dused := r2.dused + InitsArena(w, f.inits));
    assert items4 == items4 + [];
    LoadsMethods(w, r3, f.methods, items4, [], exact);
  }

  // ------------------------------------------------------------------
  // Truncated files
  // ------------------------------------------------------------------

  function Longer(r: Reader, more: seq<Item>): Reader {
    r.(items := r.items + more)
  }

  /** Reading that does not come to the end reads the same when the file goes on.  The
      error of the buffer does not tell, since errno may be 0. */
  lemma NumExtends(r: Reader, more: seq<Item>)
    ensures Readable(r) ==> Readable(Longer(r, more))
    ensures Readable(r) ==> GetNum(Longer(r, more)) == (GetNum(r).0, Longer(GetNum(r).1, more))
    ensures Readable(GetNum(r).1) ==> Readable(r)
  {
    if Readable(r) {
      assert (r.items + more)[1..] == r.items[1..] + more;
    }
  }

  lemma StrExtends(r: Reader, more: seq<Item>)
    ensures Readable(r) ==> GetStr(Longer(r, more)) == (GetStr(r).0, Longer(GetStr(r).1, more))
    ensures Readable(GetStr(r).1) ==> Readable(r)
    ensures !Readable(r) ==> GetStr(r).0.None?
  {
    NumExtends(r, more);
  }

  lemma {:induction false} FactvarsExtend(r: Reader, n: nat, more: seq<Item>)
    ensures Readable(GetFactvars(r, n).1) ==>
              && Readable(r)
              && GetFactvars(Longer(r, more), n) == (GetFactvars(r, n).0, Longer(GetFactvars(r, n).1, more))
  {
    hide GetNum, GetStr, Readable;
    if n > 0 {
      FactvarsExtend(r, n - 1, more);
      var r1 := GetFactvars(r, n - 1).1;
      NumExtends(r1, more);
      StrExtends(GetNum(r1).1, more);
      NumExtends(GetStr(GetNum(r1).1).1, more);
    }
  }

  lemma {:induction false} DresvarsExtend(r: Reader, n: nat, more: seq<Item>)
    ensures Readable(GetDresvars(r, n).1) ==>
              && Readable(r)
              && GetDresvars(Longer(r, more), n) == (GetDresvars(r, n).0, Longer(GetDresvars(r, n).1, more))
  {
    hide GetNum, GetStr, Readable;
    if n > 0 {
      DresvarsExtend(r, n - 1, more);
      var r1 := GetDresvars(r, n - 1).1;
      NumExtends(r1, more);
      StrExtends(GetNum(r1).1, more);
    }
  }

  /** Methods are read to the end of the file, and one that is cut short has no name. */
  lemma {:induction false} MethodsExtend(r: Reader, n: nat, more: seq<Item>)
    ensures GetMethods(Longer(r, more), n) == (GetMethods(r, n).0, Longer(GetMethods(r, n).1, more))
            || Nameless(GetMethods(r, n).0)
  {
    hide GetNum, GetStr, Readable;
    if n > 0 {
      MethodsExtend(r, n - 1, more);
      var (ms, r1) := GetMethods(r, n - 1);
      var m := GetMethod(r1).0;
      if Nameless(ms) {
        var i :| 0 <= i < |ms| && ms[i].name.None?;
        assert (ms + [m])[i].name.None?;
      } else if m.name.None? {
        assert (ms + [m])[|ms|].name.None?;
      } else {
        StrExtends(GetNum(r1).1, more);
        NumExtends(r1, more);
      }
    }
  }

  predicate Nameless(ms: seq<MethodImage>) {
    exists i | 0 <= i < |ms| :: ms[i].name.None?
  }

  lemma ValueExtends(r: Reader, tag: int, more: seq<Item>)
    ensures Readable(GetValue(r, tag).1) ==>
              && Readable(r)
              && GetValue(Longer(r, more), tag) == (GetValue(r, tag).0, Longer(GetValue(r, tag).1, more))
  {
    hide GetStr, GetNum, FromParts, Readable;
    NumExtends(r, more);
    StrExtends(r, more);
    NumExtends(GetNum(r).1, more);
  }

  lemma FieldExtends(w: Width, r: Reader, more: seq<Item>)
    ensures var l := LoadField(w, r);
            l.Got? && Readable(l.r) ==>
              Readable(r) && LoadField(w, Longer(r, more)) == Got(l.val, Longer(l.r, more))
  {
    hide GetNum, GetStr, GetValue, SizeField;
    if Alloc(r, SizeField(w)).Got? {
      var r1 := Alloc(r, SizeField(w)).r;
      StrExtends(r1, more);
      NumExtends(GetStr(r1).1, more);
      var (tag, r3) := GetNum(GetStr(r1).1);
      ValueExtends(r3, tag, more);
    }
  }

  lemma {:induction false} FieldsExtend(w: Width, r: Reader, n: nat, more: seq<Item>)
    ensures var l := LoadFields(w, r, n);
            l.Got? && Readable(l.r) ==>
              Readable(r) && LoadFields(w, Longer(r, more), n) == Got(l.val, Longer(l.r, more))
  {
    hide LoadField, Readable;
    if n > 0 {
      FieldsExtend(w, r, n - 1, more);
      if LoadFields(w, r, n - 1).Got? {
        FieldExtends(w, LoadFields(w, r, n - 1).r, more);
      }
    }
  }

  lemma InitExtends(w: Width, r: Reader, more: seq<Item>)
    ensures var l := LoadInit(w, r);
            l.Got? && Readable(l.r) ==> Readable(r) && LoadInit(w, Longer(r, more)) == Got(l.val, Longer(l.r, more))
  {
    hide GetNum, LoadFields, SizeInitializer;
    if Alloc(r, SizeInitializer(w)).Got? {
      var r1 := Alloc(r, SizeInitializer(w)).r;
      NumExtends(r1, more);
      NumExtends(GetNum(r1).1, more);
      var (n, r3) := GetNum(GetNum(r1).1);
      FieldsExtend(w, r3, if n < 0 then 0 else n, more);
    }
  }

  lemma {:induction false} InitsExtend(w: Width, r: Reader, n: nat, more: seq<Item>)
    ensures var l := LoadInitsFrom(w, r, n);
            l.Got? && Readable(l.r) ==>
              Readable(r) && LoadInitsFrom(w, Longer(r, more), n) == Got(l.val, Longer(l.r, more))
  {
    hide LoadInit, Readable;
    if n > 0 {
      InitsExtend(w, r, n - 1, more);
      if LoadInitsFrom(w, r, n - 1).Got? {
        InitExtends(w, LoadInitsFrom(w, r, n - 1).r, more);
      }
    }
  }

  lemma LoadFactvarsExtends(w: Width, r: Reader, more: seq<Item>)
    ensures var l := LoadFactvars(w, r);
            l.Got? && Readable(l.r) ==>
              Readable(r) && LoadFactvars(w, Longer(r, more)) == Got(l.val, Longer(l.r, more))
  {
    hide GetNum, GetFactvars;
    NumExtends(r, more);
    var (n, r1) := GetNum(r);
    if AllocTable(r1, n, SizeVariable(w)).Got? {
      FactvarsExtend(AllocTable(r1, n, SizeVariable(w)).r, n, more);
    }
  }

  lemma LoadDresvarsExtends(w: Width, r: Reader, more: seq<Item>)
    ensures var l := LoadDresvars(w, r);
            l.Got? && Readable(l.r) ==>
              Readable(r) && LoadDresvars(w, Longer(r, more)) == Got(l.val, Longer(l.r, more))
  {
    hide GetNum, GetDresvars;
    NumExtends(r, more);
    var (n, r1) := GetNum(r);
    if AllocTable(r1, n, SizeVariable(w)).Got? {
      DresvarsExtend(AllocTable(r1, n, SizeVariable(w)).r, n, more);
    }
  }

  lemma LoadInitsExtends(w: Width, r: Reader, more: seq<Item>)
    ensures var l := LoadInits(w, r);
            l.Got? && Readable(l.r) ==> Readable(r) && LoadInits(w, Longer(r, more)) == Got(l.val, Longer(l.r, more))
  {
    hide GetNum, LoadInitsFrom;
    NumExtends(r, more);
    var (n, r1) := GetNum(r);
    InitsExtend(w, r1, if n < 0 then 0 else n, more);
  }

  /** At the end of the file there are no methods. */
  lemma LoadMethodsExtends(w: Width, r: Reader, more: seq<Item>)
    ensures var l := LoadMethods(w, r);
            l.Got? ==>
              if Readable(r) then LoadMethods(w, Longer(r, more)) == Got(l.val, Longer(l.r, more)) || Nameless(l.val)
              else l.val == []
  {
    hide GetNum, SizeMethod;
    NumExtends(r, more);
    var (n, r1) := GetNum(r);
    if Readable(r) {
      hide GetMethods;
      if AllocTable(r1, n, SizeMethod(w)).Got? {
        MethodsExtend(AllocTable(r1, n, SizeMethod(w)).r, n, more);
      }
    } else {
      NoNumber(r);
    }
  }

  lemma NoNumber(r: Reader)
    requires !Readable(r)
    ensures GetNum(r).0 == 0
  {
  }

  lemma RestExtends(w: Width, r: Reader, more: seq<Item>)
    ensures var l := LoadRest(w, r);
            l.Got? ==>
              LoadRest(w, Longer(r, more)) == Got(l.val, Longer(l.r, more))
              || l.val.methods == [] || Nameless(l.val.methods)
  {
    hide LoadFactvars, LoadDresvars, LoadInits, LoadMethods, Readable, Nameless;
    LoadFactvarsExtends(w, r, more);
    if LoadFactvars(w, r).Got? {
      var r1 := LoadFactvars(w, r).r;
      LoadDresvarsExtends(w, r1, more);
      if LoadDresvars(w, r1).Got? {
        var r2 := LoadDresvars(w, r1).r;
        LoadInitsExtends(w, r2, more);
        if LoadInits(w, r2).Got? {
          LoadMethodsExtends(w, LoadInits(w, r2).r, more);
        }
      }
    }
  }

  /** Something for every entry that is missing. */
  function Padding(es: seq<Entry>): (items: seq<Item>)
    ensures |items| == |es|
  {
    seq(|es|, k requires 0 <= k < |es| => Num(if es[k].Number? then es[k].i else 0))
  }

  /** The beginning of the later sections does not load as the whole, whatever errno is.
      There are methods in every rule set: the builtin ones are registered before
      anything else (src/dres.c:169). */
  lemma TruncatedFails(w: Width, r: Reader, f: Rest)
    requires f.methods != [] && ProperInits(f.inits) && r.error == 0 && r.dused + RestArena(w, f) <= r.dsize
    requires |r.items| < |RestEntries(f)| && AllEncode(r.strings, r.items, RestEntries(f)[..|r.items|], false)
    ensures !(LoadRest(w, r).Got? && LoadRest(w, r).val == NormalRest(f))
  {
    hide LoadRest, RestEntries, RestArena, ProperInits, HeldAt, NoNul;
    var es, m := RestEntries(f), |r.items|;
    var more := Padding(es[m..]);
    forall k | 0 <= k < |es| ensures Encodes(r.strings, (r.items + more)[k], es[k], false) {
      if k < m {
        assert Encodes(r.strings, r.items[k], es[..m][k], false);
      }
    }
    RestReads(w, Longer(r, more), f, r.items + more, false);
    RestExtends(w, r, more);
  }

  // ------------------------------------------------------------------
  // Whole files
  // ------------------------------------------------------------------

  function NormalSet(f: RuleSet): RuleSet {
    RuleSet(AllNormal(f.targets), NormalRest(f.rest))
  }

  /** Rule sets that can be saved: names are C strings, and so on. */
  ghost predicate Savable(f: RuleSet) {
    && (forall i | 0 <= i < |f.targets| :: Saveable(f.targets[i]))
    && Clean(RestEntries(f.rest)) && ProperInits(f.rest.inits)
  }

  lemma {:induction false} InitsArenaIs(w: Width, inits: seq<InitImage>)
    ensures InitsArena(w, inits) == SizeInitializer(w) * |inits| + SizeField(w) * FieldCount(inits)
  {
    if inits != [] {
      InitsArenaIs(w, inits[..|inits| - 1]);
    }
  }

  lemma RestCovered(w: Width, h: Header, f: Rest)
    requires h.nvariable == |f.factvars| + |f.dresvars| && h.ninit == |f.inits|
    requires h.nfield == FieldCount(f.inits) && h.nmethod == |f.methods|
    ensures RestArena(w, f) == OtherSize(w, h)
  {
    InitsArenaIs(w, f.inits);
  }

  lemma TargetsCountOnly(w: Width, b: Writer, ts: seq<TargetImage>)
    requires b.header == NO_COUNTS
    ensures var h := SaveTargets(w, b, ts).header; h.nvariable == h.ninit == h.nfield == h.nmethod == 0
  {
    hide SaveEach;
    var b1 := PutNum(b, |ts|);
    AllCounted(w, b1.(header := b1.header.(ntarget := |ts|)), ts);
    CountsOther(w, ts);
  }

  lemma {:induction false} CountsOther(w: Width, ts: seq<TargetImage>)
    ensures var h := CountedAll(w, ts); h.nvariable == h.ninit == h.nfield == h.nmethod == 0
  {
    if ts != [] {
      CountsOther(w, ts[..|ts| - 1]);
    }
  }

  lemma SameTargetSize(w: Width, h: Header, h1: Header)
    requires h1 == h.(nvariable := h1.nvariable, ninit := h1.ninit, nfield := h1.nfield, nmethod := h1.nmethod)
    ensures TargetSize(w, h1) == TargetSize(w, h)
  {
  }

  lemma NewReady(w: Width, size: nat)
    ensures Ready(NewWriter(w, size, size)) && NewWriter(w, size, size).error == 0
  {
  }

  /** The state of the reader once the targets are loaded. */
  function AfterTargets(w: Width, size: nat, f: RuleSet, errno: int): Reader {
    var b, b1 := Attempt(w, size, f), Finished(w, size, f);
    Reader(b1.items[if |b.items| <= |b1.items| then |b.items| else 0..],
           TableSize(w, |f.targets|) + ArenaAll(w, f.targets),
           ArenaSize(w, b1.header), b1.strings, 0, errno)
  }

  lemma LoadsTargets(w: Width, size: nat, f: RuleSet, errno: int)
    requires Savable(f) && Attempt(w, size, f).error == 0
    ensures var b, b1 := Attempt(w, size, f), Finished(w, size, f);
            && Written(b, b1, RestEntries(f.rest))
            && var r := AfterTargets(w, size, f, errno);
            && LoadTargets(w, Open(w, File(b1.header, b1.strings, b1.items), errno))
               == (if Loadable(w, f.targets) then Got(AllNormal(f.targets), r) else Exited)
            && r.dused + RestArena(w, f.rest) <= r.dsize
  {
    hide SaveTargets, SaveRest, RestEntries, RestArena, NewWriter, LoadTargets, AllNormal, TableSize, ArenaAll,
         TargetSize, OtherSize, ProperInits, Clean, Ready, Saveable, Loadable;
    var b, b1 := Attempt(w, size, f), Finished(w, size, f);
    NewReady(w, size);
    FreshHeader(w, size, size);
    AttemptReady(w, size, f);
    WrittenRest(w, b, f.rest);
    TargetsCountOnly(w, NewWriter(w, size, size), f.targets);
    RestCovered(w, b1.header, f.rest);
    SameTargetSize(w, b.header, b1.header);
    ArenaSuffices(w, NewWriter(w, size, size), f.targets);
    var rest := b1.items[|b.items|..];
    assert b1.items == b.items + rest;
    SaveThenLoad(w, size, size, f.targets, Open(w, File(b1.header, b1.strings, b1.items), errno), rest);
  }

  lemma AttemptReady(w: Width, size: nat, f: RuleSet)
    requires Attempt(w, size, f).error == 0
    ensures Ready(Attempt(w, size, f))
  {
    hide SaveEach, AllItems, HeldAt, AlignUp;
    var b0 := NewWriter(w, size, size);
    var b1 := PutNum(b0, |f.targets|);
    var b2 := b1.(header := b1.header.(ntarget := |f.targets|));
    var offs := WroteAll(w, b2, f.targets);
    ReadyLater(b2, Attempt(w, size, f));
  }

  /** The whole round trip.  If no error was met up to the last section, loading the file
      gives the rules back: it never fails for want of room, although the arena is
      worked out from one header for all sections.  A 64-bit host exits instead exactly
      if some code comes after an odd number of list entries. */
  lemma FileRoundTrip(w: Width, size: nat, f: RuleSet, errno: int)
    requires Savable(f) && Finished(w, size, f).error == 0
    ensures var b := Finished(w, size, f);
            var l := LoadFile(w, File(b.header, b.strings, b.items), errno);
            if Loadable(w, f.targets) then l.Got? && l.val == NormalSet(f) && l.r.error == 0 && l.r.items == []
            else l == Exited
  {
    hide SaveTargets, SaveRest, RestEntries, RestArena, NewWriter, LoadTargets, LoadRest, Loadable, ProperInits, Clean,
         NormalRest, AllNormal, Encodes;
    AttemptFine(w, size, f);
    LoadsTargets(w, size, f, errno);
    LastEntry(f.rest);
    if Loadable(w, f.targets) {
      var r := AfterTargets(w, size, f, errno);
      assert RestEntries(f.rest)[..|RestEntries(f.rest)|] == RestEntries(f.rest);
      RestReads(w, r, f.rest, r.items, true);
    }
  }

  /** The later sections do not end in the middle of a double. */
  lemma LastEntry(f: Rest)
    ensures RestEntries(f) != [] && !RestEntries(f)[|RestEntries(f)| - 1].Half?
  {
    var es := MethodsEntries(f.methods);
    assert es != [] && !es[|es| - 1].Half?;
    hide FactvarsEntries, DresvarsEntries, InitsEntries, MethodsEntries;
    assert RestEntries(f)[|RestEntries(f)| - 1] == es[|es| - 1];
  }

  lemma AttemptFine(w: Width, size: nat, f: RuleSet)
    requires Savable(f) && Finished(w, size, f).error == 0
    ensures Attempt(w, size, f).error == 0
  {
    hide SaveTargets, NewWriter;
    if Attempt(w, size, f).error != 0 {
      RestSticky(w, Attempt(w, size, f), f.rest);
    }
  }

  lemma {:induction false} PutSticky(w: Width, b: Writer, es: seq<Entry>)
    requires b.error != 0
    ensures PutAll(w, b, es).error == b.error
  {
    if es != [] {
      PutSticky(w, b, es[..|es| - 1]);
      if es[|es| - 1].Name? {
        StrKeeps(w, PutAll(w, b, es[..|es| - 1]), es[|es| - 1].s);
      }
    }
  }

  lemma RestSticky(w: Width, b: Writer, f: Rest)
    requires b.error != 0
    ensures SaveRest(w, b, f).error == b.error
  {
    hide PutAll;
    PutSticky(w, b, FactvarsEntries(f.factvars));
    PutSticky(w, SaveFactvars(w, b, f.factvars), DresvarsEntries(f.dresvars));
    PutSticky(w, SaveDresvars(w, SaveFactvars(w, b, f.factvars), f.dresvars), InitsEntries(f.inits));
    PutSticky(w, SaveInits(w, SaveDresvars(w, SaveFactvars(w, b, f.factvars), f.dresvars), f.inits),
              MethodsEntries(f.methods));
  }

  /** A file left by a save whose targets fitted is complete exactly if no error was met
      up to the last section. */
  lemma CompleteIff(w: Width, size: nat, f: RuleSet, errno: int)
    requires f.rest.methods != [] && Savable(f) && Loadable(w, f.targets) && Attempt(w, size, f).error == 0
    ensures var b := Finished(w, size, f);
            var l := LoadFile(w, File(b.header, b.strings, b.items), errno);
            (l.Got? && l.val == NormalSet(f)) <==> b.error == 0
  {
    hide SaveTargets, SaveRest, RestEntries, RestArena, NewWriter, LoadTargets, LoadRest, Loadable, ProperInits, Clean,
         NormalRest, AllNormal, Encodes;
    LoadsTargets(w, size, f, errno);
    var b := Finished(w, size, f);
    if b.error == 0 {
      FileRoundTrip(w, size, f, errno);
    } else {
      TruncatedFails(w, AfterTargets(w, size, f, errno), f.rest);
    }
  }
}
