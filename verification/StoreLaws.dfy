/** What lookups, assignments and insertions do to the fact store, in terms of which
    facts and in which order (src/vm-global.c). */
module StoreLaws {
  import opened Words
  import opened Facts
  import opened FactLaws

  // ------------------------------------------------------------------
  // Lookup
  // ------------------------------------------------------------------

  lemma {:induction false} NamedTogether(w: World, a: seq<Ref>, b: seq<Ref>, name: string)
    ensures Named(w, a + b, name) == Named(w, a, name) + Named(w, b, name)
  {
    if b == [] {
      assert a + b == a;
    } else {
      NamedTogether(w, a, b[..|b| - 1], name);
      assert (a + b)[..|a + b| - 1] == a + b[..|b| - 1];
    }
  }

  lemma {:induction false} NamedAre(w: World, refs: seq<Ref>, name: string)
    ensures forall r :: r in Named(w, refs, name) <==> r in refs && w.Of(r).name == name
    ensures Distinct(refs) ==> Distinct(Named(w, refs, name))
  {
    if refs != [] {
      var init, last := refs[..|refs| - 1], refs[|refs| - 1];
      NamedAre(w, init, name);
      assert forall r :: r in refs <==> r in init || r == last;
    }
  }

  /** Two facts of a list, one before the other. */
  predicate Follows(refs: seq<Ref>, q: Ref, r: Ref) {
    exists i, j | 0 <= i < j < |refs| :: refs[i] == q && refs[j] == r
  }

  lemma NamedFollow(w: World, refs: seq<Ref>, name: string, q: Ref, r: Ref)
    requires Follows(refs, q, r) && w.Of(q).name == w.Of(r).name == name
    ensures Follows(Named(w, refs, name), q, r)
  {
    hide Named;
    var i, j :| 0 <= i < j < |refs| && refs[i] == q && refs[j] == r;
    var a, b := refs[..j], refs[j..];
    assert refs == a + b && a[i] == q && b[0] == r;
    NamedTogether(w, a, b, name);
    NamedAre(w, a, name);
    NamedAre(w, b, name);
    var na, nb := Named(w, a, name), Named(w, b, name);
    assert q in na && r in nb;
    var k :| 0 <= k < |na| && na[k] == q;
    var l :| 0 <= l < |nb| && nb[l] == r;
    assert (na + nb)[k] == q && (na + nb)[|na| + l] == r;
  }

  /** A lookup gives the facts of the name, all of them, each once, and in the order of
      the store; and the name itself only if there are none. */
  lemma LookupLaw(w: World, name: string, q: Ref, r: Ref)
    requires Distinct(w.store)
    ensures var g := Lookup(w, name);
            && (q in g.facts <==> q in w.store && w.Of(q).name == name)
            && Distinct(g.facts)
            && (Follows(w.store, q, r) && q in g.facts && r in g.facts ==> Follows(g.facts, q, r))
            && (g.name == Some(name) <==> g.facts == []) && (g.name == None <==> g.facts != [])
  {
    hide Named, Distinct, Follows;
    NamedAre(w, w.store, name);
    if Follows(w.store, q, r) && w.Of(q).name == w.Of(r).name == name {
      NamedFollow(w, w.store, name, q, r);
    }
  }

  // ------------------------------------------------------------------
  // Writing fields
  // ------------------------------------------------------------------

  /** A field of a fact whose value is freed: the fact had it, and it is set anew. */
  predicate FreedBy(w: World, w1: World, p: Place) {
    p in w1.freed && w1.freed[p] == w.calls
  }

  predicate KeptBy(w: World, w1: World, p: Place) {
    if p in w.freed then p in w1.freed && w1.freed[p] == w.freed[p] else p !in w1.freed
  }

  /** A fact gets other fields.  Setting the ones that differ frees the values of these;
      clearing the fact first frees all its values, the ones that stay the same too. */
  lemma WritingFrees(w: World, r: Ref, fields: Fields, p: Place)
    ensures var w1, w2, f := w.With(r, fields), w.Reset(r, fields), w.FieldsOf(r);
            && (forall q :: w1.Of(q) == w2.Of(q) == if q == r then Fact(w.Of(r).name, fields) else w.Of(q))
            && w1.store == w2.store == w.store && w1.next == w2.next == w.next && w1.calls == w2.calls == w.calls
            && (if p.fact == r && p.field in f && (p.field in fields ==> fields[p.field] != f[p.field])
                then FreedBy(w, w1, p) else KeptBy(w, w1, p))
            && (if p.fact == r && p.field in f then FreedBy(w, w2, p) else KeptBy(w, w2, p))
  {
    MarksAre(r, Differing(w.FieldsOf(r), fields), w.calls, p);
    MarksAre(r, w.FieldsOf(r).Keys, w.calls, p);
  }

  lemma MarksAre(r: Ref, fields: set<string>, count: nat, p: Place)
    ensures p in Marks(r, fields, count) <==> p.fact == r && p.field in fields
    ensures p in Marks(r, fields, count) ==> Marks(r, fields, count)[p] == count
  {
    if p.fact == r && p.field in fields {
      assert p == Place(r, p.field);
    }
  }

  // ------------------------------------------------------------------
  // REPLACE
  // ------------------------------------------------------------------

  /** The name that inserted facts get: the one of the first destination, or of the
      global itself, as much of it as a buffer of 256 bytes holds. */
  lemma ReplaceNamed(w: World, dst: Global)
    ensures ReplaceName(w, dst).None? <==> dst.facts == [] && dst.name.None?
    ensures ReplaceName(w, dst).Some? ==>
              var name := if dst.facts != [] then w.Of(dst.facts[0]).name else dst.name.value;
              var got := ReplaceName(w, dst).value;
              got <= name && |got| <= 255 && (|name| <= 255 ==> got == name) && (|name| > 255 ==> |got| == 255)
  {
  }

  /** The facts of a list that are in the store, in order. */
  function Within(refs: seq<Ref>, store: seq<Ref>): seq<Ref> {
    if refs == [] then []
    else
      var rest, last := Within(refs[..|refs| - 1], store), refs[|refs| - 1];
      if last in store then rest + [last] else rest
  }

  lemma {:induction false} WithinSame(refs: seq<Ref>, a: seq<Ref>, b: seq<Ref>)
    requires forall r | r in refs :: r in a <==> r in b
    ensures Within(refs, a) == Within(refs, b)
  {
    if refs != [] {
      assert forall r | r in refs[..|refs| - 1] :: r in refs;
      WithinSame(refs[..|refs| - 1], a, b);
    }
  }

  lemma {:induction false} RemovingLeaves(refs: seq<Ref>, slots: seq<Option<Ref>>, store: seq<Ref>)
    requires forall r | r in refs :: r in store <==> !InSlots(r, slots)
    ensures RemoveFrom(refs, slots) == Within(refs, store)
  {
    if refs != [] {
      assert forall r | r in refs[..|refs| - 1] :: r in refs;
      RemovingLeaves(refs[..|refs| - 1], slots, store);
    }
  }

  /** The sources left over are in the order of the sources. */
  lemma {:induction false} LeftInOrder(ds: Dests, src: seq<Ref>, fields: seq<string>)
    requires Distinct(src) && MergeAll(ds, src, fields).Merged?
    ensures var left := MergeAll(ds, src, fields).left;
            left == Within(src, left) && forall r | r in left :: r in src
  {
    hide Scan, FirstMissing, ScanDereferences;
    if src != [] {
      var init, s := src[..|src| - 1], src[|src| - 1];
      LeftInOrder(ds, init, fields);
      var m := MergeAll(ds, init, fields);
      var left := MergeAll(ds, src, fields).left;
      assert left == m.left || left == m.left + [s];
      assert forall r | r in init :: r in src && r != s;
      assert forall r | r in init :: r in left <==> r in m.left;
      WithinSame(init, left, m.left);
    }
  }

  lemma {:induction false} AllWithin(refs: seq<Ref>)
    ensures forall store :: (forall r | r in refs :: r in store) ==> Within(refs, store) == refs
  {
    if refs != [] {
      AllWithin(refs[..|refs| - 1]);
    }
  }

  /** After a REPLACE the store holds what it has kept, and then the sources that have
      been inserted, both in the order they had. */
  lemma ReplaceOrder(w: World, src: seq<Ref>, dst: seq<Ref>, fields: seq<string>, name: string)
    requires Distinct(dst) && Distinct(src) && Apart(src, dst) && AllHave(w, src, fields)
    requires (forall d | d in dst :: d in w.store) && (forall s | s in src :: s !in w.store)
    ensures var e := ReplaceAll(w, src, dst, fields, name);
            e.Done? && e.w.store == Within(w.store, e.w.store) + Within(src, e.w.store)
  {
    hide MergeAll, MergedFrom, HasAll, RemoveFrom, InsertAll;
    var ds0 := Dests(w, Occupied(dst), |dst|, false);
    MergeLaw(w, src, dst, fields);
    AllWithin(src);
    var m := if fields == [] then Merged(ds0, src) else MergeAll(ds0, src, fields);
    if fields != [] {
      LeftInOrder(ds0, src, fields);
    }
    var kept := RemoveFrom(w.store, m.ds.slots);
    Removed(w.store, m.ds.slots);
    Inserted(m.ds.w.(store := kept), m.left, name);
    var store := kept + m.left;
    assert ReplaceAll(w, src, dst, fields, name).w.store == store;
    RemovingLeaves(w.store, m.ds.slots, store);
    WithinSame(src, m.left, store);
  }

  // ------------------------------------------------------------------
  // The reach of the scan
  // ------------------------------------------------------------------

  /** How many of the slots from `j` up to `i` have been emptied. */
  function Emptied(before: seq<Option<Ref>>, after: seq<Option<Ref>>, j: nat, i: nat): nat
    requires j <= i <= |before| == |after|
  {
    if i == j then 0
    else Emptied(before, after, j, i - 1) + if before[i - 1].Some? && after[i - 1].None? then 1 else 0
  }

  lemma {:induction false} EmptiedFirst(before: seq<Option<Ref>>, after: seq<Option<Ref>>, j: nat, i: nat)
    requires j < i <= |before| == |after|
    ensures Emptied(before, after, j, i)
         == (if before[j].Some? && after[j].None? then 1 else 0) + Emptied(before, after, j + 1, i)
  {
    if j + 1 < i {
      EmptiedFirst(before, after, j, i - 1);
    }
  }

  lemma {:induction false} EmptiedSame(a: seq<Option<Ref>>, b: seq<Option<Ref>>, after: seq<Option<Ref>>, j: nat,
                                       i: nat)
    requires j <= i <= |a| == |b| == |after|
    requires forall k | j <= k < i :: a[k] == b[k]
    ensures Emptied(a, after, j, i) == Emptied(b, after, j, i)
  {
    if j < i {
      EmptiedSame(a, b, after, j, i - 1);
    }
  }

  /** The destination in slot `i` is there, matches the source, and is within reach. */
  predicate Reached(ds: Dests, ds1: Dests, sf: Fields, fields: seq<string>, j: nat, i: nat)
    requires j <= i < |ds.slots| == |ds1.slots|
  {
    && ds.slots[i].Some? && Agrees(ds.w.FieldsOf(ds.slots[i].value), fields, sf)
    && i + Emptied(ds.slots, ds1.slots, j, i) < ds.nfact
  }

  /** A scan merges the source into every destination that matches it, as long as it
      gets there: every merge brings the end of the scan one slot nearer.  So a source
      that matches all of `n` destinations is merged into the first half of them only. */
  lemma {:induction false} ScanReaches(ds: Dests, sf: Fields, fields: seq<string>, j: nat)
    requires forall k | 0 <= k < |fields| :: fields[k] in sf
    ensures var ds1 := Scan(ds, sf, fields, j);
            && |ds1.slots| == |ds.slots|
            && (forall i: nat | i < j && i < |ds.slots| :: ds1.slots[i] == ds.slots[i])
            && (forall i: nat | j <= i < |ds.slots| ::
                  if Reached(ds, ds1, sf, fields, j, i) then ds1.slots[i] == None else ds1.slots[i] == ds.slots[i])
    decreases |ds.slots| - j
  {
    MatchesAre(fields);
    hide Matches, Agrees, Reached;
    var ds1 := Scan(ds, sf, fields, j);
    if j >= ds.nfact || j >= |ds.slots| {
      NoneReached(ds, sf, fields, j);
    } else if ds.slots[j].Some? && Agrees(ds.w.FieldsOf(ds.slots[j].value), fields, sf) {
      var ds2 := Hit(ds, sf, j);
      ScanReaches(ds2, sf, fields, j + 1);
      ReachedHit(ds, ds1, sf, fields, j);
    } else {
      ScanReaches(ds, sf, fields, j + 1);
      ReachedMiss(ds, ds1, sf, fields, j);
    }
  }

  lemma NoneReached(ds: Dests, sf: Fields, fields: seq<string>, j: nat)
    requires j >= ds.nfact || j >= |ds.slots|
    ensures forall i: nat | j <= i < |ds.slots| :: !Reached(ds, ds, sf, fields, j, i)
  {
    hide Agrees;
  }

  /** A merge in slot `j` changes neither what matches nor what is within reach. */
  lemma ReachedHit(ds: Dests, ds1: Dests, sf: Fields, fields: seq<string>, j: nat)
    requires j < |ds.slots| == |ds1.slots| && ds.slots[j].Some? && ds.nfact > 0 && ds1.slots[j] == None
    requires Agrees(ds.w.FieldsOf(ds.slots[j].value), fields, sf)
    ensures j < ds.nfact ==> Reached(ds, ds1, sf, fields, j, j)
    ensures forall i: nat | j < i < |ds.slots| ::
              Reached(ds, ds1, sf, fields, j, i) <==> Reached(Hit(ds, sf, j), ds1, sf, fields, j + 1, i)
  {
    var ds2 := Hit(ds, sf, j);
    forall i: nat | j < i < |ds.slots|
      ensures Reached(ds, ds1, sf, fields, j, i) <==> Reached(ds2, ds1, sf, fields, j + 1, i)
    {
      EmptiedFirst(ds.slots, ds1.slots, j, i);
      EmptiedSame(ds.slots, ds2.slots, ds1.slots, j + 1, i);
      if ds.slots[i].Some? {
        AgreesStill(ds, sf, fields, j, ds.slots[i].value);
      }
    }
  }

  lemma AgreesStill(ds: Dests, sf: Fields, fields: seq<string>, j: nat, r: Ref)
    requires j < |ds.slots| && ds.slots[j].Some? && ds.nfact > 0
    requires Agrees(ds.w.FieldsOf(ds.slots[j].value), fields, sf)
    ensures Agrees(Hit(ds, sf, j).w.FieldsOf(r), fields, sf) <==> Agrees(ds.w.FieldsOf(r), fields, sf)
  {
    var q := ds.slots[j].value;
    WritingFrees(ds.w, q, ds.w.FieldsOf(q) + sf, Place(q, ""));
  }

  lemma ReachedMiss(ds: Dests, ds1: Dests, sf: Fields, fields: seq<string>, j: nat)
    requires j < |ds.slots| == |ds1.slots| && ds1.slots[j] == ds.slots[j]
    requires ds.slots[j].None? || !Agrees(ds.w.FieldsOf(ds.slots[j].value), fields, sf)
    ensures !Reached(ds, ds1, sf, fields, j, j)
    ensures forall i: nat | j < i < |ds.slots| ::
              Reached(ds, ds1, sf, fields, j, i) <==> Reached(ds, ds1, sf, fields, j + 1, i)
  {
    hide Agrees;
    forall i: nat | j < i < |ds.slots| ensures Emptied(ds.slots, ds1.slots, j, i)
                                            == Emptied(ds.slots, ds1.slots, j + 1, i)
    {
      EmptiedFirst(ds.slots, ds1.slots, j, i);
    }
  }

  /** All `n` destinations match: the first half is merged, rounded up. */
  lemma HalfMerged(w: World, dst: seq<Ref>, sf: Fields, fields: seq<string>, i: nat)
    requires forall j | 0 <= j < |dst| :: Agrees(w.FieldsOf(dst[j]), fields, sf)
    requires forall k | 0 <= k < |fields| :: fields[k] in sf
    requires i < |dst|
    ensures var ds1 := Scan(Dests(w, Occupied(dst), |dst|, false), sf, fields, 0);
            && |ds1.slots| == |dst|
            && (ds1.slots[i] == None <==> 2 * i < |dst|)
  {
    hide Agrees, Scan;
    var ds := Dests(w, Occupied(dst), |dst|, false);
    ScanReaches(ds, sf, fields, 0);
    HalfEmptied(ds.slots, Scan(ds, sf, fields, 0).slots, i, (|dst| + 1) / 2);
  }

  /** Slot `j` is emptied exactly if the scan gets there. */
  predicate AsReached(before: seq<Option<Ref>>, after: seq<Option<Ref>>, j: nat)
    requires j < |before| == |after|
  {
    after[j] == None <==> j + Emptied(before, after, 0, j) < |before|
  }

  lemma {:induction false} HalfEmptied(before: seq<Option<Ref>>, after: seq<Option<Ref>>, i: nat, half: nat)
    requires |after| == |before| <= 2 * half <= |before| + 1 && i < |before|
    requires forall j | 0 <= j < |before| :: before[j].Some? && AsReached(before, after, j)
    ensures Emptied(before, after, 0, i) == if i <= half then i else half
    ensures after[i] == None <==> 2 * i < |before|
  {
    hide AsReached;
    if i > 0 {
      HalfEmptied(before, after, i - 1, half);
    }
    SlotEmptied(before, after, i, half);
  }

  lemma SlotEmptied(before: seq<Option<Ref>>, after: seq<Option<Ref>>, i: nat, half: nat)
    requires |after| == |before| <= 2 * half <= |before| + 1 && i < |before| && AsReached(before, after, i)
    requires Emptied(before, after, 0, i) == if i <= half then i else half
    ensures after[i] == None <==> 2 * i < |before|
  {
  }
}
