/** Values that are freed while something still points to them.  UPDATE and REPLACE
    match by pointers into the sources (src/vm-global.c:441-451), and a string read from
    a field is not copied (src/vm-global.c:426).  When that is harmless, and inputs
    for which it is not. */
module Lifetimes {
  import opened Words
  import opened Facts
  import opened FactLaws
  import opened StoreLaws
  import opened Machine
  import opened Lang
  import opened Emit
  import opened Correctness
  import opened Unwinding

  // ------------------------------------------------------------------
  // Match fields
  // ------------------------------------------------------------------

  /** No fact has lost, gained or changed a match field. */
  ghost predicate KeysKept(w: World, w1: World, fields: seq<string>) {
    forall r :: Key(w1.FieldsOf(r), fields) == Key(w.FieldsOf(r), fields)
  }

  /** What is asked of fields to match depends on the keys alone. */
  lemma ByKey(f: Fields, g: Fields, fields: seq<string>)
    requires Key(f, fields) == Key(g, fields)
    ensures HasAll(f, fields) <==> HasAll(g, fields)
    ensures fields != [] ==> (fields[0] in f <==> fields[0] in g)
    ensures forall i | 0 <= i < |fields| && fields[i] in f :: fields[i] in g && g[fields[i]] == f[fields[i]]
  {
    forall i | 0 <= i < |fields|
      ensures (fields[i] in f <==> fields[i] in g) && (fields[i] in f ==> f[fields[i]] == g[fields[i]])
    {
      assert Key(f, fields)[i] == Key(g, fields)[i];
    }
  }

  lemma MatchByKey(d: Fields, d1: Fields, s: Fields, s1: Fields, fields: seq<string>)
    requires Key(d, fields) == Key(d1, fields) && Key(s, fields) == Key(s1, fields)
    ensures Matches(d, fields, s) <==> Matches(d1, fields, s1)
  {
    hide Key;
    ByKey(d, d1, fields);
    ByKey(d1, d, fields);
    ByKey(s, s1, fields);
    ByKey(s1, s, fields);
  }

  /** Assigning a source to a fact that it matches keeps the key of the fact. */
  lemma AssignKeeps(w: World, d: Ref, sf: Fields, fields: seq<string>, partial: bool)
    requires Matches(w.FieldsOf(d), fields, sf)
    ensures KeysKept(w, Assigned(w, d, sf, partial), fields)
  {
    AssignedOne(w, d, sf, partial);
    var f, f1 := w.FieldsOf(d), Assign(w.FieldsOf(d), sf, partial);
    assert Key(f1, fields) == Key(f, fields);
    hide Assigned, Assign, Key;
  }

  lemma {:induction false} UpdateKeeps(w: World, sf: Fields, dst: seq<Ref>, fields: seq<string>, partial: bool)
    ensures KeysKept(w, UpdateDsts(w, sf, dst, fields, partial), fields)
  {
    hide Matches, Assigned, Key;
    if dst != [] {
      var init, last := dst[..|dst| - 1], dst[|dst| - 1];
      UpdateKeeps(w, sf, init, fields, partial);
      var w1 := UpdateDsts(w, sf, init, fields, partial);
      if Matches(w1.FieldsOf(last), fields, sf) {
        AssignKeeps(w1, last, sf, fields, partial);
      }
    }
  }

  // ------------------------------------------------------------------
  // UPDATE
  // ------------------------------------------------------------------

  /** The first match field, which the source lacks, is read from a destination that
      has it: a null pointer is compared. */
  predicate ReadsNull(w: World, s: Ref, dst: seq<Ref>, fields: seq<string>) {
    fields != [] && fields[0] !in w.FieldsOf(s) && exists d | d in dst :: fields[0] in w.FieldsOf(d)
  }

  /** The source is a destination itself, and a destination after it has a field to
      compare. */
  predicate Recurs(w: World, s: Ref, dst: seq<Ref>, fields: seq<string>) {
    fields != []
    && exists j | 0 <= j < |dst| :: dst[j] == s && exists d | d in dst[j + 1..] :: fields[0] in w.FieldsOf(d)
  }

  /** A full copy of a source onto itself comes before another comparison. */
  predicate ReadsFreed(w: World, s: Ref, dst: seq<Ref>, fields: seq<string>, partial: bool) {
    !partial && HasAll(w.FieldsOf(s), fields) && Recurs(w, s, dst, fields)
  }

  /** Some destination agrees with the source in all match fields, and comparing it with
      the others is defined. */
  predicate Assignable(w: World, s: Ref, dst: seq<Ref>, fields: seq<string>, partial: bool) {
    && HasAll(w.FieldsOf(s), fields) && HasPartner(w, dst, fields, w.FieldsOf(s))
    && !ReadsFreed(w, s, dst, fields, partial)
  }

  lemma DereferencesIs(w: World, dst: seq<Ref>, field: string)
    ensures Dereferences(w, dst, field) <==> exists d | d in dst :: field in w.FieldsOf(d)
  {
    if d :| d in dst && field in w.FieldsOf(d) {
      var j :| 0 <= j < |dst| && dst[j] == d;
    }
  }

  lemma DanglesIs(w: World, s: Ref, dst: seq<Ref>, fields: seq<string>)
    ensures Dangles(w, s, dst, fields) <==> Recurs(w, s, dst, fields)
  {
    if fields != [] {
      if j, k :| 0 <= j < k < |dst| && dst[j] == s && fields[0] in w.FieldsOf(dst[k]) {
        assert dst[j + 1..][k - j - 1] == dst[k];
      }
      if j :| 0 <= j < |dst| && dst[j] == s && exists d | d in dst[j + 1..] :: fields[0] in w.FieldsOf(d) {
        var k :| 0 <= k < |dst[j + 1..]| && fields[0] in w.FieldsOf(dst[j + 1..][k]);
        assert dst[j + 1 + k] == dst[j + 1..][k];
      }
    }
  }

  lemma PartnerIs(w: World, dst: seq<Ref>, fields: seq<string>, sf: Fields)
    ensures SomeMatch(w, dst, fields, sf) <==> HasPartner(w, dst, fields, sf)
  {
    MatchesAre(fields);
    hide Matches, Agrees;
  }

  lemma MatchesItself(w: World, s: Ref, dst: seq<Ref>, fields: seq<string>)
    requires HasAll(w.FieldsOf(s), fields) && Dangles(w, s, dst, fields)
    ensures SomeMatch(w, dst, fields, w.FieldsOf(s))
  {
    var j, k :| 0 <= j < k < |dst| && dst[j] == s && fields[0] in w.FieldsOf(dst[k]);
    assert Matches(w.FieldsOf(dst[j]), fields, w.FieldsOf(s));
  }

  lemma SourceEnds(w: World, s: Ref, dst: seq<Ref>, fields: seq<string>, partial: bool)
    ensures var e := UpdateSrc(w, s, dst, fields, partial);
            && (e.Done? <==> Assignable(w, s, dst, fields, partial))
            && (e.Undefined? <==> ReadsNull(w, s, dst, fields) || ReadsFreed(w, s, dst, fields, partial))
            && (e.Error? ==> e.err == ENOENT)
            && (e.Done? ==> KeysKept(w, e.w, fields))
  {
    hide Dangles, Recurs, SomeMatch, HasPartner, Dereferences, UpdateDsts, Key;
    DanglesIs(w, s, dst, fields);
    PartnerIs(w, dst, fields, w.FieldsOf(s));
    if fields != [] {
      DereferencesIs(w, dst, fields[0]);
    }
    UpdateKeeps(w, w.FieldsOf(s), dst, fields, partial);
    if HasAll(w.FieldsOf(s), fields) && Dangles(w, s, dst, fields) {
      MatchesItself(w, s, dst, fields);
    }
  }

  /** These conditions do not change while sources are assigned. */
  lemma SourceSame(w: World, w1: World, s: Ref, dst: seq<Ref>, fields: seq<string>, partial: bool)
    requires KeysKept(w, w1, fields)
    ensures ReadsNull(w1, s, dst, fields) <==> ReadsNull(w, s, dst, fields)
    ensures ReadsFreed(w1, s, dst, fields, partial) <==> ReadsFreed(w, s, dst, fields, partial)
    ensures Assignable(w1, s, dst, fields, partial) <==> Assignable(w, s, dst, fields, partial)
  {
    MatchesAre(fields);
    hide Key, Matches, HasAll, Agrees;
    forall r ensures HasAll(w1.FieldsOf(r), fields) <==> HasAll(w.FieldsOf(r), fields)
             ensures fields != [] ==> (fields[0] in w1.FieldsOf(r) <==> fields[0] in w.FieldsOf(r))
             ensures Matches(w1.FieldsOf(r), fields, w1.FieldsOf(s)) <==> Matches(w.FieldsOf(r), fields, w.FieldsOf(s))
    {
      ByKey(w1.FieldsOf(r), w.FieldsOf(r), fields);
      MatchByKey(w1.FieldsOf(r), w.FieldsOf(r), w1.FieldsOf(s), w.FieldsOf(s), fields);
    }
    PartnerIs(w, dst, fields, w.FieldsOf(s));
    PartnerIs(w1, dst, fields, w1.FieldsOf(s));
    hide HasPartner;
  }

  ghost predicate AllAssignable(w: World, src: seq<Ref>, dst: seq<Ref>, fields: seq<string>, partial: bool) {
    forall i | 0 <= i < |src| :: Assignable(w, src[i], dst, fields, partial)
  }

  /** Source `i` is the first that is not assigned, and reads what is not there. */
  ghost predicate GoesWrong(w: World, src: seq<Ref>, dst: seq<Ref>, fields: seq<string>, partial: bool, i: nat)
    requires i < |src|
  {
    && AllAssignable(w, src[..i], dst, fields, partial)
    && (ReadsNull(w, src[i], dst, fields) || ReadsFreed(w, src[i], dst, fields, partial))
  }

  /** UPDATE, whatever facts are sources and destinations at once: how it ends is decided
      by the facts as they are before it, because the match fields never change. */
  lemma {:induction false} UpdateDefined(w: World, src: seq<Ref>, dst: seq<Ref>, fields: seq<string>, partial: bool)
    ensures var e := UpdateAll(w, src, dst, fields, partial);
            && (e.Done? <==> AllAssignable(w, src, dst, fields, partial))
            && (e.Undefined? <==> exists i | 0 <= i < |src| :: GoesWrong(w, src, dst, fields, partial, i))
            && (e.Error? ==> e.err == ENOENT)
            && (e.Done? ==> KeysKept(w, e.w, fields))
  {
    hide UpdateSrc, Assignable, ReadsNull, ReadsFreed, Key;
    if src != [] {
      var n := |src| - 1;
      var init, s := src[..n], src[n];
      UpdateDefined(w, init, dst, fields, partial);
      var before := UpdateAll(w, init, dst, fields, partial);
      forall i | 0 <= i < n ensures GoesWrong(w, src, dst, fields, partial, i)
                               <==> GoesWrong(w, init, dst, fields, partial, i)
      {
        assert src[..i] == init[..i];
      }
      AllButLast(w, src, dst, fields, partial);
      if before.Done? {
        SourceEnds(before.w, s, dst, fields, partial);
        SourceSame(w, before.w, s, dst, fields, partial);
        NoneWrong(w, init, dst, fields, partial);
        if GoesWrong(w, src, dst, fields, partial, n) {
        }
      } else if before.Undefined? {
        var i :| 0 <= i < n && GoesWrong(w, init, dst, fields, partial, i);
        assert GoesWrong(w, src, dst, fields, partial, i);
      }
    }
  }

  lemma AllButLast(w: World, src: seq<Ref>, dst: seq<Ref>, fields: seq<string>, partial: bool)
    requires src != []
    ensures var n := |src| - 1;
            AllAssignable(w, src, dst, fields, partial)
            <==> AllAssignable(w, src[..n], dst, fields, partial) && Assignable(w, src[n], dst, fields, partial)
  {
    hide Assignable;
  }

  lemma NoneWrong(w: World, src: seq<Ref>, dst: seq<Ref>, fields: seq<string>, partial: bool)
    requires AllAssignable(w, src, dst, fields, partial)
    ensures forall i | 0 <= i < |src| :: !GoesWrong(w, src, dst, fields, partial, i)
  {
    hide Recurs, HasPartner;
    forall i | 0 <= i < |src| ensures !GoesWrong(w, src, dst, fields, partial, i) {
      assert Assignable(w, src[i], dst, fields, partial);
    }
  }

  // ------------------------------------------------------------------
  // REPLACE
  // ------------------------------------------------------------------

  function Unmerged(w: World, dst: seq<Ref>): Dests {
    Dests(w, Occupied(dst), |dst|, false)
  }

  /** Merging only takes destinations away, and changes no match field. */
  ghost predicate Narrows(ds: Dests, ds1: Dests, fields: seq<string>) {
    && |ds1.slots| == |ds.slots| && ds1.nfact <= ds.nfact && KeysKept(ds.w, ds1.w, fields)
    && forall j | 0 <= j < |ds.slots| :: ds1.slots[j] == ds.slots[j] || ds1.slots[j] == None
  }

  lemma HitNarrows(ds: Dests, sf: Fields, fields: seq<string>, j: nat)
    requires j < |ds.slots| && ds.slots[j].Some? && ds.nfact > 0
    requires Matches(ds.w.FieldsOf(ds.slots[j].value), fields, sf)
    ensures Narrows(ds, Hit(ds, sf, j), fields)
  {
    AssignKeeps(ds.w, ds.slots[j].value, sf, fields, true);
  }

  lemma {:induction false} ScanNarrows(ds: Dests, sf: Fields, fields: seq<string>, j: nat)
    ensures Narrows(ds, Scan(ds, sf, fields, j), fields)
    decreases |ds.slots| - j
  {
    hide Matches, KeysKept;
    KeepsItself(ds.w, fields);
    if j < ds.nfact && j < |ds.slots| {
      if ds.slots[j].Some? && Matches(ds.w.FieldsOf(ds.slots[j].value), fields, sf) {
        var ds1 := Hit(ds, sf, j);
        HitNarrows(ds, sf, fields, j);
        ScanNarrows(ds1, sf, fields, j + 1);
        NarrowsTwice(ds, ds1, Scan(ds1, sf, fields, j + 1), fields);
      } else {
        ScanNarrows(ds, sf, fields, j + 1);
      }
    }
  }

  lemma KeepsItself(w: World, fields: seq<string>)
    ensures KeysKept(w, w, fields)
  {
  }

  lemma NarrowsTwice(ds: Dests, ds1: Dests, ds2: Dests, fields: seq<string>)
    requires Narrows(ds, ds1, fields) && Narrows(ds1, ds2, fields)
    ensures Narrows(ds, ds2, fields)
  {
    hide Key;
    forall r ensures Key(ds2.w.FieldsOf(r), fields) == Key(ds.w.FieldsOf(r), fields) {
      assert Key(ds2.w.FieldsOf(r), fields) == Key(ds1.w.FieldsOf(r), fields);
    }
  }

  /** A destination that is left, below the count of those left, has the first match
      field. */
  ghost predicate Meets(ds: Dests, fields: seq<string>) {
    fields != [] && exists j | 0 <= j < |ds.slots| :: Ahead(ds, j, fields[0])
  }

  predicate Ahead(ds: Dests, j: nat, field: string)
    requires j < |ds.slots|
  {
    j < ds.nfact && ds.slots[j].Some? && field in ds.w.FieldsOf(ds.slots[j].value)
  }

  lemma MeetsIs(ds: Dests, field: string)
    ensures ScanDereferences(ds, field) <==> exists j | 0 <= j < |ds.slots| :: Ahead(ds, j, field)
  {
    if j :| 0 <= j < ds.nfact && j < |ds.slots| && ds.slots[j].Some? && field in ds.w.FieldsOf(ds.slots[j].value) {
      assert Ahead(ds, j, field);
    }
  }

  lemma MeetsBefore(ds: Dests, ds1: Dests, fields: seq<string>)
    requires Narrows(ds, ds1, fields) && Meets(ds1, fields)
    ensures Meets(ds, fields)
  {
    hide Key;
    var j :| 0 <= j < |ds1.slots| && Ahead(ds1, j, fields[0]);
    assert ds.slots[j] == ds1.slots[j];
    ByKey(ds1.w.FieldsOf(ds1.slots[j].value), ds.w.FieldsOf(ds1.slots[j].value), fields);
    assert Ahead(ds, j, fields[0]);
  }

  /** A source has every match field, or not even the first. */
  predicate Proper(f: Fields, fields: seq<string>) {
    HasAll(f, fields) || (fields != [] && fields[0] !in f)
  }

  /** One source: with all match fields it is merged; without the first it is undefined
      if it meets a destination that has it, and left over otherwise; and if it lacks
      only others, REPLACE raises. */
  lemma MergeEnds(ds: Dests, left: seq<Ref>, s: Ref, fields: seq<string>)
    ensures var m, f := MergeSrc(ds, left, s, fields), ds.w.FieldsOf(s);
            && (HasAll(f, fields) ==> m.Merged?)
            && (m.MergeUndefined? <==> fields != [] && fields[0] !in f && Meets(ds, fields))
            && (m.MergeError? <==> !Proper(f, fields)) && (m.MergeError? ==> m.err == ENOENT)
            && (m.Merged? ==> Narrows(ds, m.ds, fields)
                              && (HasAll(f, fields) || (fields[0] !in f && !Meets(ds, fields))))
  {
    hide Scan, ScanDereferences, Key;
    var f := ds.w.FieldsOf(s);
    if fields != [] {
      MeetsIs(ds, fields[0]);
    }
    KeepsItself(ds.w, fields);
    if FirstMissing(f, fields) == |fields| {
      var ds0 := ds.(hit := false);
      ScanNarrows(ds0, f, fields, 0);
      NarrowsTwice(ds, ds0, Scan(ds0, f, fields, 0), fields);
    }
  }

  /** Source `i` lacks the first match field, all before it have every match field, and
      a destination that is left has it. */
  ghost predicate MergesNull(w: World, src: seq<Ref>, dst: seq<Ref>, fields: seq<string>, i: nat)
    requires i < |src|
  {
    && AllHave(w, src[..i], fields) && fields != [] && fields[0] !in w.FieldsOf(src[i])
    && var m := MergeAll(Unmerged(w, dst), src[..i], fields);
       m.Merged? && Meets(m.ds, fields)
  }

  /** The sources so far: all have every match field, or one without the first has met
      nothing, and then nothing will be met any more. */
  ghost predicate Harmless(w: World, src: seq<Ref>, fields: seq<string>, ds: Dests) {
    AllHave(w, src, fields) || !Meets(ds, fields)
  }

  ghost predicate AllProper(w: World, src: seq<Ref>, fields: seq<string>) {
    forall s | s in src :: Proper(w.FieldsOf(s), fields)
  }

  lemma {:induction false} MergeDefined(w: World, src: seq<Ref>, dst: seq<Ref>, fields: seq<string>)
    ensures var m := MergeAll(Unmerged(w, dst), src, fields);
            && (m.Merged? ==> Narrows(Unmerged(w, dst), m.ds, fields) && Harmless(w, src, fields, m.ds))
            && (AllHave(w, src, fields) ==> m.Merged?)
            && (m.MergeUndefined? <==> exists i | 0 <= i < |src| :: MergesNull(w, src, dst, fields, i))
            && (m.Merged? ==> AllProper(w, src, fields))
            && (m.MergeError? ==> m.err == ENOENT && !AllProper(w, src, fields))
  {
    hide MergeSrc, Meets, Key, HasAll, Proper;
    KeepsItself(w, fields);
    if src != [] {
      var n := |src| - 1;
      var init, s := src[..n], src[n];
      MergeDefined(w, init, dst, fields);
      var m0 := MergeAll(Unmerged(w, dst), init, fields);
      forall i | 0 <= i < n ensures MergesNull(w, src, dst, fields, i) <==> MergesNull(w, init, dst, fields, i) {
        assert src[..i] == init[..i];
      }
      assert AllHave(w, src, fields) <==> AllHave(w, init, fields) && HasAll(w.FieldsOf(s), fields) by {
        assert forall r :: r in src <==> r in init || r == s;
      }
      assert forall r :: r in src <==> r in init || r == s;
      if m0.Merged? {
        MergeLast(w, init, s, m0.ds, m0.left, dst, fields);
        assert MergesNull(w, src, dst, fields, n)
               <==> AllHave(w, init, fields) && fields != [] && fields[0] !in w.FieldsOf(s) && Meets(m0.ds, fields);
      } else if m0.MergeUndefined? {
        var i :| 0 <= i < n && MergesNull(w, init, dst, fields, i);
        assert MergesNull(w, src, dst, fields, i);
      }
    }
  }

  /** One more source. */
  lemma MergeLast(w: World, init: seq<Ref>, s: Ref, ds: Dests, left: seq<Ref>, dst: seq<Ref>, fields: seq<string>)
    requires Narrows(Unmerged(w, dst), ds, fields) && Harmless(w, init, fields, ds)
    ensures var m, f := MergeSrc(ds, left, s, fields), w.FieldsOf(s);
            && (HasAll(f, fields) ==> m.Merged?)
            && (m.MergeUndefined? <==>
                  AllHave(w, init, fields) && fields != [] && fields[0] !in f && Meets(ds, fields))
            && (m.MergeError? <==> !Proper(f, fields)) && (m.MergeError? ==> m.err == ENOENT)
            && (m.Merged? ==> Narrows(Unmerged(w, dst), m.ds, fields)
                              && ((AllHave(w, init, fields) && HasAll(f, fields)) || !Meets(m.ds, fields)))
  {
    hide MergeSrc, Meets, Key, HasAll, AllHave;
    MergeEnds(ds, left, s, fields);
    ByKey(ds.w.FieldsOf(s), w.FieldsOf(s), fields);
    ByKey(w.FieldsOf(s), ds.w.FieldsOf(s), fields);
    var m := MergeSrc(ds, left, s, fields);
    if m.Merged? {
      NarrowsTwice(Unmerged(w, dst), ds, m.ds, fields);
      if Meets(m.ds, fields) {
        MeetsBefore(ds, m.ds, fields);
      }
    }
  }

  /** REPLACE, whatever facts are sources and destinations at once, is undefined exactly if
      the first source without all match fields lacks the first one, and a destination
      that the sources before it have left has that field.  Otherwise it raises exactly
      if some source has the first match field but not all of them. */
  lemma ReplaceDefined(w: World, src: seq<Ref>, dst: seq<Ref>, fields: seq<string>, name: string)
    ensures var e := ReplaceAll(w, src, dst, fields, name);
            && (e.Undefined? <==> exists i | 0 <= i < |src| :: MergesNull(w, src, dst, fields, i))
            && (e.Done? ==> AllProper(w, src, fields))
            && (e.Error? ==> e.err == ENOENT && !AllProper(w, src, fields))
  {
    hide MergeAll, InsertAll, RemoveFrom, Meets;
    MergeDefined(w, src, dst, fields);
    assert Unmerged(w, dst) == Dests(w, Occupied(dst), |dst|, false);
  }

  // ------------------------------------------------------------------
  // Strings read from fields
  // ------------------------------------------------------------------

  /** A string whose fact has gone, or whose field has been freed, after it was read. */
  predicate Gone(w: World, v: Value) {
    && v.Str? && v.loan.Some?
    && (v.loan.value.place.fact in w.store ==>
          v.loan.value.place in w.freed && w.freed[v.loan.value.place] > v.loan.value.since)
  }

  /** Which uses of values are undefined: comparing two strings of which one has gone,
      testing or storing one that has, and passing one among the arguments of a call. */
  lemma UsesOfGone(w: World, a: Value, b: Value, vs: seq<Value>, g: Global, field: string)
    ensures Dangling(w, a) <==> Gone(w, a)
    ensures DanglingPair(w, a, b) <==> a.Str? && b.Str? && (Gone(w, a) || Gone(w, b))
    ensures DanglingAmong(w, vs) <==> exists v | v in vs :: Gone(w, v)
    ensures SetFieldOf(w, g, field, a).Undefined? <==> |g.facts| == 1 && Gone(w, a)
  {
    forall i | 0 <= i < |vs| ensures Dangling(w, vs[i]) <==> Gone(w, vs[i]) {
    }
    hide Dangling, Gone;
  }

  /** A comparison whose operands come to values is undefined exactly in that case. */
  lemma ComparedGone(cfg: Config, op: nat, a: Expr, b: Expr, depth: nat, scope: seq<Frame>, cap: nat, w: World)
    requires Eval(cfg, b, depth, scope, cap, w).Ok?
    requires var rb := Eval(cfg, b, depth, scope, cap, w); Eval(cfg, a, depth + 1, scope, rb.cap, rb.w).Ok?
    ensures var rb := Eval(cfg, b, depth, scope, cap, w);
            var ra := Eval(cfg, a, depth + 1, scope, rb.cap, rb.w);
            Eval(cfg, Rel(op, a, b), depth, scope, cap, w).Bad?
            <==> ra.val.Str? && rb.val.Str? && (Gone(ra.w, ra.val) || Gone(ra.w, rb.val))
  {
    var rb := Eval(cfg, b, depth, scope, cap, w);
    var ra := Eval(cfg, a, depth + 1, scope, rb.cap, rb.w);
    UsesOfGone(ra.w, ra.val, rb.val, [], Global(None, []), "");
    hide DanglingPair, Gone, Compare;
  }

  /** No value is known to have been freed later than now. */
  ghost predicate Marked(w: World) {
    forall p | p in w.freed :: w.freed[p] <= w.calls
  }

  /** A world after calls that free no field and remove no fact. */
  ghost predicate Since(w: World, w1: World) {
    w1.freed == w.freed && w1.calls >= w.calls && forall r | r in w.store :: r in w1.store
  }

  lemma SinceTwice(w: World, w1: World, w2: World)
    requires Since(w, w1) && Since(w1, w2)
    ensures Since(w, w2)
  {
  }

  lemma StaysSound(w: World, w1: World, v: Value)
    requires Since(w, w1) && !Dangling(w, v)
    ensures !Dangling(w1, v)
  {
  }

  lemma MarkedSince(w: World, w1: World)
    requires Since(w, w1) && Marked(w)
    ensures Marked(w1)
  {
  }

  /** Locals hold no strings of facts: they are bound to literals and to other locals. */
  ghost predicate Owned(scope: seq<Frame>) {
    forall i, x | 0 <= i < |scope| && x in scope[i] :: IsOwned(scope[i][x])
  }

  predicate IsOwned(v: Value) {
    v.Str? ==> v.loan.None?
  }

  lemma {:induction false} LocalOwned(nlocal: nat, scope: seq<Frame>, idx: nat)
    requires Owned(scope)
    ensures IsOwned(ScopeGet(nlocal, scope, idx))
  {
    if scope != [] {
      LocalOwned(nlocal, scope[..|scope| - 1], idx);
    }
  }

  lemma OperandOwned(cfg: Config, o: Operand, depth: nat, scope: seq<Frame>, cap: nat, w: World)
    requires Owned(scope)
    ensures var r := EvalOperand(cfg, o, depth, scope, cap, w);
            (r.Ok? || r.Exn?) && r.w == w && (r.Ok? ==> IsOwned(r.val))
  {
    if o.OpLocal? {
      LocalOwned(cfg.nlocal, scope, o.idx);
    }
  }

  lemma {:induction false} BindingsOwned(cfg: Config, locals: seq<Binding>, depth: nat, scope: seq<Frame>, cap: nat,
                                         w: World)
    requires Owned(scope)
    ensures var r := EvalBindings(cfg, locals, depth, scope, cap, w);
            && (r.Ok? || r.Exn?) && r.w == w
            && (r.Ok? ==> |r.val| == |locals| && forall i | 0 <= i < |r.val| :: IsOwned(r.val[i]))
  {
    hide EvalOperand, GrowInt;
    if locals != [] {
      var n := |locals| - 1;
      BindingsOwned(cfg, locals[..n], depth, scope, cap, w);
      var r0 := EvalBindings(cfg, locals[..n], depth, scope, cap, w);
      if r0.Ok? {
        OperandOwned(cfg, locals[n].operand, depth + 2 * n, scope, r0.cap, r0.w);
      }
    }
  }

  lemma {:induction false} FrameOwned(cfg: Config, locals: seq<Binding>, vs: seq<Value>, frame: Frame)
    requires |locals| == |vs| && (forall i | 0 <= i < |vs| :: IsOwned(vs[i])) && Owned([frame])
    ensures var f := BindAll(cfg, locals, vs, frame); f.Some? ==> Owned([f.value])
  {
    if locals != [] {
      var n := |locals| - 1;
      var f := ScopeSet(cfg.nlocal, frame, locals[n].idx, vs[n]);
      if f.Some? {
        assert forall x | x in frame :: IsOwned([frame][0][x]);
        assert Owned([f.value]);
        FrameOwned(cfg, locals[..n], vs[..n], f.value);
      }
    }
  }

  /** The scope a method is called in holds no strings of facts if the one around it
      does not. */
  lemma ScopeOwned(cfg: Config, locals: seq<Binding>, depth: nat, scope: seq<Frame>, cap: nat, w: World)
    requires Owned(scope)
    ensures var r := EnterScope(cfg, locals, depth, scope, cap, w);
            (r.Ok? || r.Exn?) && r.w == w && (r.Ok? ==> Owned(r.val))
  {
    hide EvalBindings, BindAll, IsOwned;
    if locals != [] {
      BindingsOwned(cfg, locals, depth, scope, cap, w);
      var r := EvalBindings(cfg, locals, depth, scope, cap, w);
      if r.Ok? {
        FrameOwned(cfg, locals, r.val, map[]);
        var f := BindAll(cfg, locals, r.val, map[]);
        if f.Some? {
          assert forall x | x in f.value :: IsOwned([f.value][0][x]);
        }
      }
    }
  }

  /** A handler that frees no field, removes no fact, and does not crash. */
  ghost predicate Gentle(h: Handler) {
    forall name, args, scope, depth, cap, w :: GentleAt(h, name, args, scope, depth, cap, w)
  }

  ghost predicate GentleAt(h: Handler, name: string, args: seq<Value>, scope: seq<Frame>, depth: nat, cap: nat,
                           w: World)
  {
    var r := h(name, args, scope, depth, cap, w);
    r.CallResult? && Since(w, r.w) && !Dangling(r.w, r.value)
  }

  /** An expression without selectors. */
  predicate Unselective(e: Expr) {
    match e
    case Ref(r) => r.selectors == []
    case Rel(_, a, b) => Unselective(a) && Unselective(b)
    case Not(a) => Unselective(a)
    case Or(a, b) => Unselective(a) && Unselective(b)
    case And(a, b) => Unselective(a) && Unselective(b)
    case CallExpr(_, args, _) => forall i | 0 <= i < |args| :: Unselective(args[i])
    case _ => true
  }

  predicate UnselectiveStmt(s: Stmt) {
    match s
    case AssignStmt(_, l, r) => l.selectors == [] && Unselective(r)
    case CallStmt(_, args, _) => forall i | 0 <= i < |args| :: Unselective(args[i])
    case IfStmt(cond, thn, els) =>
      && Unselective(cond) && (forall i | 0 <= i < |thn| :: UnselectiveStmt(thn[i]))
      && (forall i | 0 <= i < |els| :: UnselectiveStmt(els[i]))
  }

  ghost predicate Sound(r: Res<Value>, w: World) {
    !r.Bad? && Since(w, r.w) && (r.Ok? ==> !Dangling(r.w, r.val))
  }

  ghost predicate SoundAll(r: Res<seq<Value>>, w: World) {
    !r.Bad? && Since(w, r.w) && (r.Ok? ==> !DanglingAmong(r.w, r.val))
  }

  lemma WholeGlobal(cfg: Config, name: string, depth: nat, scope: seq<Frame>, cap: nat, w: World)
    ensures EvalFiltered(cfg, name, [], depth, scope, cap, w) == Ok(Lookup(w, name), GrowStr(cfg, cap, depth, name), w)
  {
  }

  lemma LookupStored(w: World, name: string)
    ensures forall r | r in Lookup(w, name).facts :: r in w.store
  {
    NamedMembers(w, w.store, name);
  }

  /** What has just been read has not been freed. */
  lemma ReadSound(w: World, g: Global, field: string)
    requires Marked(w) && forall r | r in g.facts :: r in w.store
    ensures var e := GetFieldOf(w, g, field); !e.Undefined? && e.w == w && (e.Done? ==> !Dangling(w, e.val))
  {
  }

  lemma RefSound(cfg: Config, r: VarRef, depth: nat, scope: seq<Frame>, cap: nat, w: World)
    requires r.selectors == [] && Owned(scope) && Marked(w)
    ensures Sound(EvalRef(cfg, r, depth, scope, cap, w), w)
  {
    hide EvalFiltered, Lookup, GetFieldOf, Named;
    match r.variable
    case Local(idx) => LocalOwned(cfg.nlocal, scope, idx);
    case GlobalVar(name) =>
      WholeGlobal(cfg, name, depth, scope, cap, w);
      LookupStored(w, name);
      if r.field.Some? {
        ReadSound(w, Lookup(w, name), r.field.value);
      }
  }

  lemma InvokeSound(cfg: Config, name: string, args: seq<Value>, depth: nat, scope: seq<Frame>, cap: nat, w: World)
    requires Gentle(cfg.handler) && !DanglingAmong(w, args)
    ensures Sound(Invoke(cfg, name, args, depth, scope, cap, w), w)
  {
    hide DanglingAmong, Grow;
    var cap1 := Grow(GrowInt(cfg, cap, depth + |args|), depth + |args|, |args|);
    var w1 := w.(calls := w.calls + 1);
    assert GentleAt(cfg.handler, name, args, scope, depth + |args|, cap1, w1);
    SinceTwice(w, w1, cfg.handler(name, args, scope, depth + |args|, cap1, w1).w);
  }

  lemma CallSound(cfg: Config, name: string, args: seq<Expr>, locals: seq<Binding>, depth: nat, scope: seq<Frame>,
                  cap: nat, w: World)
    requires Gentle(cfg.handler) && Owned(scope) && Marked(w) && forall i | 0 <= i < |args| :: Unselective(args[i])
    ensures Sound(EvalCall(cfg, name, args, locals, depth, scope, cap, w), w)
    decreases args, 1
  {
    hide Gentle, Owned, Marked, Since, EvalArgs, EnterScope, Invoke, Unselective, Dangling, DanglingAmong;
    ArgsSound(cfg, args, depth, scope, cap, w);
    var r := EvalArgs(cfg, args, depth, scope, cap, w);
    if r.Ok? {
      ScopeOwned(cfg, locals, depth + |args|, scope, r.cap, r.w);
      var r1 := EnterScope(cfg, locals, depth + |args|, scope, r.cap, r.w);
      if r1.Ok? {
        InvokeSound(cfg, name, r.val, depth, r1.val, r1.cap, r1.w);
        SinceTwice(w, r.w, Invoke(cfg, name, r.val, depth, r1.val, r1.cap, r1.w).w);
      }
    }
  }

  lemma {:induction false} ArgsSound(cfg: Config, args: seq<Expr>, depth: nat, scope: seq<Frame>, cap: nat, w: World)
    requires Gentle(cfg.handler) && Owned(scope) && Marked(w) && forall i | 0 <= i < |args| :: Unselective(args[i])
    ensures SoundAll(EvalArgs(cfg, args, depth, scope, cap, w), w)
    decreases args, 0
  {
    hide Gentle, Owned, Marked, Eval, Unselective, Dangling;
    if args != [] {
      var n := |args| - 1;
      ArgsSound(cfg, args[..n], depth, scope, cap, w);
      var r0 := EvalArgs(cfg, args[..n], depth, scope, cap, w);
      if r0.Ok? {
        MarkedSince(w, r0.w);
        ExprSound(cfg, args[n], depth + n, scope, r0.cap, r0.w);
        var r1 := Eval(cfg, args[n], depth + n, scope, r0.cap, r0.w);
        forall i | 0 <= i < |r0.val| ensures !Dangling(r1.w, r0.val[i]) {
          StaysSound(r0.w, r1.w, r0.val[i]);
        }
      }
    }
  }

  /** A condition that is sound is decided, or raises. */
  lemma TestSound(v: Value, cap: nat, w: World)
    requires !Dangling(w, v)
    ensures var r := Test01(v, cap, w); (r.Ok? || r.Exn?) && r.w == w
  {
  }

  lemma SinceNow(w: World)
    ensures Since(w, w)
  {
  }

  lemma NumbersOwned(op: nat, a: Value, b: Value, w: World)
    ensures Compare(op, a, b).Some? ==> !Dangling(w, Compare(op, a, b).value)
    ensures Negate(a).Some? ==> !Dangling(w, Negate(a).value)
  {
  }

  lemma LiteralSound(cfg: Config, e: Expr, depth: nat, scope: seq<Frame>, cap: nat, w: World)
    requires e.ConstInt? || e.ConstDbl? || e.ConstStr?
    ensures Sound(Eval(cfg, e, depth, scope, cap, w), w)
  {
  }

  lemma RelSound(cfg: Config, op: nat, a: Expr, b: Expr, depth: nat, scope: seq<Frame>, cap: nat, w: World)
    requires Gentle(cfg.handler) && Owned(scope) && Marked(w) && Unselective(a) && Unselective(b)
    ensures Sound(Eval(cfg, Rel(op, a, b), depth, scope, cap, w), w)
    decreases Rel(op, a, b), 1
  {
    hide Gentle, Owned, Marked, Since, Eval, Unselective, Compare, Dangling;
    RelIs(cfg, op, a, b, depth, scope, cap, w);
    ExprSound(cfg, b, depth, scope, cap, w);
    var rb := Eval(cfg, b, depth, scope, cap, w);
    if rb.Ok? {
      MarkedSince(w, rb.w);
      ExprSound(cfg, a, depth + 1, scope, rb.cap, rb.w);
      var ra := Eval(cfg, a, depth + 1, scope, rb.cap, rb.w);
      SinceTwice(w, rb.w, ra.w);
      if ra.Ok? {
        StaysSound(rb.w, ra.w, rb.val);
        NumbersOwned(op, ra.val, rb.val, ra.w);
      }
    }
  }

  lemma ShortSound(cfg: Config, or: bool, a: Expr, b: Expr, depth: nat, scope: seq<Frame>, cap: nat, w: World)
    requires Gentle(cfg.handler) && Owned(scope) && Marked(w) && Unselective(a) && Unselective(b)
    ensures Sound(Eval(cfg, if or then Or(a, b) else And(a, b), depth, scope, cap, w), w)
    decreases if or then Or(a, b) else And(a, b), 1
  {
    hide Gentle, Owned, Marked, Since, Eval, Unselective, Test01, GrowInt;
    EvalShortIs(cfg, or, a, b, depth, scope, cap, w);
    ExprSound(cfg, a, depth, scope, cap, w);
    var ra := Eval(cfg, a, depth, scope, cap, w);
    if ra.Ok? {
      TestSound(ra.val, ra.cap, ra.w);
      MarkedSince(w, ra.w);
      ExprSound(cfg, b, depth, scope, ra.cap, ra.w);
      var rb := Eval(cfg, b, depth, scope, ra.cap, ra.w);
      SinceTwice(w, ra.w, rb.w);
      if rb.Ok? {
        TestSound(rb.val, rb.cap, rb.w);
      }
    }
  }

  /** An expression without selectors, evaluated with gentle handlers, never meets a
      string that has been freed, and is always defined. */
  lemma ExprSound(cfg: Config, e: Expr, depth: nat, scope: seq<Frame>, cap: nat, w: World)
    requires Gentle(cfg.handler) && Owned(scope) && Marked(w) && Unselective(e)
    ensures Sound(Eval(cfg, e, depth, scope, cap, w), w)
    decreases e, 2
  {
    hide Gentle, Owned, Marked, Since, EvalCall, EvalRef, Compare, Negate;
    match e
    case Ref(r) => RefSound(cfg, r, depth, scope, cap, w);
    case Rel(op, a, b) => RelSound(cfg, op, a, b, depth, scope, cap, w);
    case Not(a) =>
      ExprSound(cfg, a, depth, scope, cap, w);
      var r := Eval(cfg, a, depth, scope, cap, w);
      if r.Ok? {
        NumbersOwned(0, r.val, r.val, r.w);
      }
    case Or(a, b) =>
      assert Or(a, b) == if true then Or(a, b) else And(a, b);
      ShortSound(cfg, true, a, b, depth, scope, cap, w);
    case And(a, b) =>
      assert And(a, b) == if false then Or(a, b) else And(a, b);
      ShortSound(cfg, false, a, b, depth, scope, cap, w);
    case CallExpr(name, args, locals) => CallSound(cfg, name, args, locals, depth, scope, cap, w);
    case _ => LiteralSound(cfg, e, depth, scope, cap, w);
  }

  // Statements.

  lemma {:induction false} CopiesMarked(w: World, src: seq<Ref>, dst: seq<Ref>)
    requires |src| == |dst| && Marked(w)
    ensures Marked(CopyEach(w, src, dst)) && CopyEach(w, src, dst).calls == w.calls
  {
    if src != [] {
      CopiesMarked(w, src[..|src| - 1], dst[..|src| - 1]);
    }
  }

  lemma {:induction false} InsertsMarked(w: World, refs: seq<Ref>, name: string)
    ensures InsertAll(w, refs, name).freed == InsertCopies(w, refs, name).freed == w.freed
    ensures InsertAll(w, refs, name).calls == InsertCopies(w, refs, name).calls == w.calls
  {
    if refs != [] {
      InsertsMarked(w, refs[..|refs| - 1], name);
    }
  }

  lemma SetSound(w: World, src: Global, dst: Global)
    requires Marked(w)
    ensures var e := SetGlobal(w, src, dst); !e.Undefined? && Marked(e.w)
  {
    hide CopyEach, InsertCopies;
    if dst.IsName() {
      InsertsMarked(w, src.facts, dst.name.value);
    } else if |src.facts| == |dst.facts| {
      CopiesMarked(w, src.facts, dst.facts);
    }
  }

  lemma ReplaceSound(w: World, src: seq<Ref>, dst: seq<Ref>, name: string)
    requires Marked(w)
    ensures var e := ReplaceAll(w, src, dst, [], name); !e.Undefined? && Marked(e.w)
  {
    hide InsertAll, RemoveFrom;
    InsertsMarked(w.(store := RemoveFrom(w.store, Occupied(dst))), src, name);
  }

  lemma SetFieldSound(w: World, g: Global, field: string, v: Value)
    requires Marked(w) && !Dangling(w, v)
    ensures var e := SetFieldOf(w, g, field, v); !e.Undefined? && Marked(e.w)
  {
  }

  ghost predicate Done(r: Res<()>) {
    !r.Bad? && Marked(r.w)
  }

  lemma StoreSound(cfg: Config, kind: AssignKind, l: VarRef, v: Value, depth: nat, scope: seq<Frame>, cap: nat,
                   w: World)
    requires AcceptsStore(kind, l) && l.selectors == [] && Marked(w) && !Dangling(w, v)
    ensures Done(Store(cfg, kind, l, v, depth, scope, cap, w))
  {
    hide EvalFiltered, Lookup, SetFieldOf, SetGlobal, ReplaceAll, UpdateAll, Marked, Dangling;
    var g := Lookup(w, l.variable.name);
    WholeGlobal(cfg, l.variable.name, depth + 1, scope, cap, w);
    assert MatchFields(l.selectors) == [] && Reversed([]) == [];
    if l.field.Some? {
      SetFieldSound(w, g, l.field.value, v);
    } else if v.Glob? {
      SetSound(w, v.g, g);
      Lookedup(w, l.variable.name);
      ReplaceSound(w, v.g.facts, g.facts, ReplaceName(w, g).value);
    }
  }

  lemma Lookedup(w: World, name: string)
    ensures ReplaceName(w, Lookup(w, name)).Some?
  {
  }

  lemma StmtSound(cfg: Config, s: Stmt, depth: nat, scope: seq<Frame>, cap: nat, w: World)
    requires AcceptsStmt(cfg, s) && UnselectiveStmt(s) && Gentle(cfg.handler) && Owned(scope) && Marked(w)
    ensures Done(Lang.Run(cfg, s, depth, scope, cap, w))
    decreases s, 1
  {
    hide Gentle, Owned, Marked, Since, Eval, EvalCall, Store, Dangling, Unselective, AcceptsExpr, Test01;
    match s
    case AssignStmt(kind, l, r) =>
      ExprSound(cfg, r, depth, scope, cap, w);
      var v := Eval(cfg, r, depth, scope, cap, w);
      MarkedSince(w, v.w);
      if v.Ok? {
        StoreSound(cfg, kind, l, v.val, depth, scope, v.cap, v.w);
      }
    case CallStmt(name, args, locals) =>
      CallSound(cfg, name, args, locals, depth, scope, cap, w);
      MarkedSince(w, EvalCall(cfg, name, args, locals, depth, scope, cap, w).w);
    case IfStmt(cond, thn, els) =>
      ExprSound(cfg, cond, depth, scope, cap, w);
      var v := Eval(cfg, cond, depth, scope, cap, w);
      MarkedSince(w, v.w);
      if v.Ok? {
        TestSound(v.val, v.cap, v.w);
        StmtsSound(cfg, thn, depth, scope, v.cap, v.w);
        StmtsSound(cfg, els, depth, scope, v.cap, v.w);
      }
  }

  lemma {:induction false} StmtsSound(cfg: Config, ss: seq<Stmt>, depth: nat, scope: seq<Frame>, cap: nat, w: World)
    requires AcceptsStmts(cfg, ss) && (forall i | 0 <= i < |ss| :: UnselectiveStmt(ss[i]))
    requires Gentle(cfg.handler) && Owned(scope) && Marked(w)
    ensures Done(RunAll(cfg, ss, depth, scope, cap, w))
    decreases ss, 0
  {
    hide Gentle, Owned, Marked, AcceptsStmt, UnselectiveStmt, Lang.Run;
    if ss != [] {
      var n := |ss| - 1;
      StmtsSound(cfg, ss[..n], depth, scope, cap, w);
      var r := RunAll(cfg, ss[..n], depth, scope, cap, w);
      if r.Ok? {
        StmtSound(cfg, ss[n], depth, scope, r.cap, r.w);
      }
    }
  }

  /** The compiled code of actions without selectors never runs into undefined behaviour,
      if the handlers they call free no fields. */
  lemma NeverStuck(cfg: Config, ss: seq<Stmt>, m: Memory)
    requires AcceptsStmts(cfg, ss) && FitsStmts(cfg, ss) && (forall i | 0 <= i < |ss| :: UnselectiveStmt(ss[i]))
    requires Gentle(cfg.handler) && Owned(m.scope) && Marked(m.w)
    ensures VmExec(cfg, TargetCode(cfg, ss).cells, TargetCode(cfg, ss).n, m) != Stuck
  {
    hide *;
    TargetCorrect(cfg, ss, m);
    StmtsSound(cfg, ss, |m.stack|, m.scope, m.cap, m.w);
    NotBad(m, RunAll(cfg, ss, |m.stack|, m.scope, m.cap, m.w));
  }

  lemma NotBad(m: Memory, r: Res<()>)
    requires Done(r)
    ensures Expected(m, r) != Stuck
  {
  }

  // ------------------------------------------------------------------
  // Inputs
  // ------------------------------------------------------------------

  const FIELD := Ref(VarRef(GlobalVar("g"), [], Some("s")))

  /** `f($g.s, h())`. */
  function Shows(): Stmt {
    CallStmt("f", [FIELD, CallExpr("h", [], [])], [])
  }

  /** The string of `$g.s` when the call of `h` is made. */
  function ReadField(w: World): Value
    requires |Lookup(w, "g").facts| == 1 && "s" in w.FieldsOf(Lookup(w, "g").facts[0])
  {
    var r := Lookup(w, "g").facts[0];
    AsValue(w.FieldsOf(r)["s"], Loan(Place(r, "s"), w.calls))
  }

  lemma FieldRead(cfg: Config, depth: nat, scope: seq<Frame>, cap: nat, w: World)
    requires |Lookup(w, "g").facts| == 1 && "s" in w.FieldsOf(Lookup(w, "g").facts[0])
    ensures var r := Eval(cfg, FIELD, depth, scope, cap, w); r.Ok? && r.val == ReadField(w) && r.w == w
  {
    hide Lookup;
    WholeGlobal(cfg, "g", depth, scope, cap, w);
  }

  lemma TwoArgs(cfg: Config, a: Expr, b: Expr, depth: nat, scope: seq<Frame>, cap: nat, w: World)
    ensures var r, ra := EvalArgs(cfg, [a, b], depth, scope, cap, w), Eval(cfg, a, depth, scope, cap, w);
            && (!ra.Ok? ==> r == ra.PropagateFailure())
            && (ra.Ok? ==>
                  var rb := Eval(cfg, b, depth + 1, scope, ra.cap, ra.w);
                  && (!rb.Ok? ==> r == rb.PropagateFailure())
                  && (rb.Ok? ==> r == Ok([ra.val, rb.val], rb.cap, rb.w)))
  {
    hide Eval;
    assert [a, b][..1] == [a] && [a][..0] == [];
    assert EvalArgs(cfg, [], depth, scope, cap, w) == Ok([], cap, w);
    var ra := Eval(cfg, a, depth, scope, cap, w);
    if ra.Ok? {
      assert EvalArgs(cfg, [a], depth, scope, cap, w).val == [ra.val];
      var rb := Eval(cfg, b, depth + 1, scope, ra.cap, ra.w);
      if rb.Ok? {
        assert [ra.val] + [rb.val] == [ra.val, rb.val];
      }
    }
  }

  /** What `h()` comes to as the second argument. */
  function Between(cfg: Config, depth: nat, scope: seq<Frame>, cap: nat, w: World): Res<Value> {
    var r := Eval(cfg, FIELD, depth, scope, cap, w);
    if r.Ok? then Eval(cfg, CallExpr("h", [], []), depth + 1, scope, r.cap, r.w) else r
  }

  /** Reading a string field and calling a method before the string is used: undefined
      exactly if the method has removed the fact or freed the field. */
  lemma ArgumentFreed(cfg: Config, m: Memory)
    requires "f" in cfg.methods && "h" in cfg.methods && |cfg.methods| < COUNT_LIMIT
    requires forall args, scope, depth, cap, w :: cfg.handler("f", args, scope, depth, cap, w).CallResult?
    requires |Lookup(m.w, "g").facts| == 1
    requires var f := m.w.FieldsOf(Lookup(m.w, "g").facts[0]); "s" in f && f["s"].StrField?
    requires var h := Between(cfg, |m.stack|, m.scope, m.cap, m.w); h.Ok? && !Dangling(h.w, h.val)
    ensures var w1, place := Between(cfg, |m.stack|, m.scope, m.cap, m.w).w, Place(Lookup(m.w, "g").facts[0], "s");
            VmExec(cfg, TargetCode(cfg, [Shows()]).cells, TargetCode(cfg, [Shows()]).n, m) == Stuck
            <==> place.fact !in w1.store || (place in w1.freed && w1.freed[place] > m.w.calls)
  {
    hide VmExec, TargetCode, Eval, Lookup;
    var st, sc := |m.stack|, m.scope;
    ShowsFits(cfg);
    OneAction(cfg, Shows(), m);
    FieldRead(cfg, st, sc, m.cap, m.w);
    TwoArgs(cfg, FIELD, CallExpr("h", [], []), st, sc, m.cap, m.w);
    var h := Between(cfg, st, sc, m.cap, m.w);
    var vs := [ReadField(m.w), h.val];
    assert DanglingAmong(h.w, vs) <==> Dangling(h.w, vs[0]);
    assert Lang.Run(cfg, Shows(), st, sc, m.cap, m.w).Bad?
           <==> Invoke(cfg, "f", vs, st, sc, h.cap, h.w).Bad?;
  }

  lemma ShowsFits(cfg: Config)
    requires "f" in cfg.methods && "h" in cfg.methods && |cfg.methods| < COUNT_LIMIT
    ensures AcceptsStmt(cfg, Shows()) && FitsStmt(cfg, Shows())
  {
    assert AcceptsExpr(cfg, FIELD) && AcceptsExpr(cfg, CallExpr("h", [], []));
    assert FitsExpr(cfg, FIELD) && FitsExpr(cfg, CallExpr("h", [], []));
  }

  /** A handler that sets `$g.s`, given that the fact is the first of the heap. */
  function Setting(text: string): Handler {
    (name: string, args: seq<Value>, scope: seq<Frame>, depth: nat, cap: nat, w: World) =>
      if name == "h" then CallResult(1, Int(1), cap, w.With(0, w.FieldsOf(0)["s" := StrField(text)]))
      else CallResult(1, Int(1), cap, w)
  }

  /** Setting another string is undefined, and setting the same one is not, because
      then the field is left alone (src/vm-global.c:338-342). */
  lemma ArgumentInputs(cfg: Config, text: string, m: Memory)
    requires cfg.handler == Setting(text) && "f" in cfg.methods && "h" in cfg.methods && |cfg.methods| < COUNT_LIMIT
    requires m.w == Stored([Fact("g", map["s" := StrField("old")])])
    ensures VmExec(cfg, TargetCode(cfg, [Shows()]).cells, TargetCode(cfg, [Shows()]).n, m) == Stuck <==> text != "old"
  {
    hide VmExec, TargetCode, Lookup, Eval, Setting, Between;
    OneNamed(m.w);
    SettingBetween(cfg, text, |m.stack|, m.scope, m.cap, m.w);
    forall args, scope, depth, cap, w ensures cfg.handler("f", args, scope, depth, cap, w).CallResult? {
      SettingAnswers(text, "f", args, scope, depth, cap, w);
    }
    ArgumentFreed(cfg, m);
  }

  lemma SettingAnswers(text: string, name: string, args: seq<Value>, scope: seq<Frame>, depth: nat, cap: nat, w: World)
    ensures Setting(text)(name, args, scope, depth, cap, w)
         == CallResult(1, Int(1), cap, if name == "h" then w.With(0, w.FieldsOf(0)["s" := StrField(text)]) else w)
  {
  }

  /** What the call of `h` leaves. */
  lemma SettingBetween(cfg: Config, text: string, depth: nat, scope: seq<Frame>, cap: nat, w: World)
    requires cfg.handler == Setting(text) && w == Stored([Fact("g", map["s" := StrField("old")])])
    ensures var h, place := Between(cfg, depth, scope, cap, w), Place(0, "s");
            && h.Ok? && h.val == Int(1) && h.w.store == [0]
            && (place in h.w.freed <==> text != "old") && (place in h.w.freed ==> h.w.freed[place] == 1)
  {
    hide Lookup, Eval, Setting;
    OneNamed(w);
    FieldRead(cfg, depth, scope, cap, w);
    var r := Eval(cfg, FIELD, depth, scope, cap, w);
    CallAlone(cfg, depth + 1, scope, r.cap, w);
    var cap1 := Grow(GrowInt(cfg, r.cap, depth + 1), depth + 1, 0);
    var w1 := w.(calls := 1);
    SettingAnswers(text, "h", [], scope, depth + 1, cap1, w1);
    var f := w1.FieldsOf(0);
    assert f == map["s" := StrField("old")] && f["s" := StrField(text)]["s"] == StrField(text);
    WritingFrees(w1, 0, f["s" := StrField(text)], Place(0, "s"));
  }

  lemma CallAlone(cfg: Config, depth: nat, scope: seq<Frame>, cap: nat, w: World)
    ensures Eval(cfg, CallExpr("h", [], []), depth, scope, cap, w) == Invoke(cfg, "h", [], depth, scope, cap, w)
    ensures !DanglingAmong(w, [])
  {
  }

  lemma OneNamed(w: World)
    requires w == Stored([Fact("g", map["s" := StrField("old")])])
    ensures Lookup(w, "g") == Global(None, [0]) && w.FieldsOf(0) == map["s" := StrField("old")] && w.calls == 0
    ensures w.freed == map[] && w.store == [0]
  {
    assert w.store == [0] && [0][..0] == [];
    assert w.Of(0).name == "g";
    assert Named(w, [0], "g") == [0];
  }

  const MATCH := Selector("a", false, None)

  /** `$g[a] = $y`, or `$g[a] *= $y`, with any source. */
  function Assigning(kind: AssignKind, source: string): Stmt {
    AssignStmt(kind, VarRef(GlobalVar("g"), [MATCH], None), Ref(VarRef(GlobalVar(source), [], None)))
  }

  lemma MatchFiltered(cfg: Config, depth: nat, scope: seq<Frame>, cap: nat, w: World)
    ensures var r := EvalFiltered(cfg, "g", [MATCH], depth, scope, cap, w); r.Ok? && r.val == Lookup(w, "g") && r.w == w
    ensures MatchFields([MATCH]) == ["a"] && Reversed(["a"]) == ["a"]
  {
    hide Lookup;
    assert [MATCH][..0] == [] && ["a"][..0] == [];
    var cap1 := GrowStr(cfg, cap, depth, "g");
    assert EvalTests(cfg, [MATCH], depth + 1, scope, cap1, w) == Ok([], cap1, w);
  }

  ghost predicate WrongAt(w: World, kind: AssignKind, src: seq<Facts.Ref>, dst: seq<Facts.Ref>, i: nat)
    requires i < |src|
  {
    if kind.Replacing? then MergesNull(w, src, dst, ["a"], i) else GoesWrong(w, src, dst, ["a"], kind.Partial?, i)
  }

  /** The compiled assignment is undefined exactly if UPDATE or REPLACE is, for the facts
      that the store knows under the two names. */
  lemma AssigningStuck(cfg: Config, kind: AssignKind, source: string, m: Memory)
    requires source == "y" || source == "g"
    ensures var src, dst := Lookup(m.w, source).facts, Lookup(m.w, "g").facts;
            var code := TargetCode(cfg, [Assigning(kind, source)]);
            VmExec(cfg, code.cells, code.n, m) == Stuck
            <==> exists i | 0 <= i < |src| :: WrongAt(m.w, kind, src, dst, i)
  {
    hide VmExec, TargetCode, EvalFiltered, UpdateAll, ReplaceAll, Lookup, MergesNull, GoesWrong, MatchFields, Reversed,
         ReplaceName;
    var st := |m.stack|;
    AssigningFits(cfg, kind, source);
    OneAction(cfg, Assigning(kind, source), m);
    WholeGlobal(cfg, source, st, m.scope, m.cap, m.w);
    MatchFiltered(cfg, st + 1, m.scope, GrowStr(cfg, m.cap, st, source), m.w);
    Lookedup(m.w, "g");
    var src, dst := Lookup(m.w, source).facts, Lookup(m.w, "g");
    UpdateDefined(m.w, src, dst.facts, ["a"], kind.Partial?);
    ReplaceDefined(m.w, src, dst.facts, ["a"], ReplaceName(m.w, dst).value);
    assert forall i | 0 <= i < |src| :: WrongAt(m.w, kind, src, dst.facts, i)
             <==> if kind.Replacing? then MergesNull(m.w, src, dst.facts, ["a"], i)
                  else GoesWrong(m.w, src, dst.facts, ["a"], kind.Partial?, i);
  }

  lemma AssigningFits(cfg: Config, kind: AssignKind, source: string)
    requires source == "y" || source == "g"
    ensures AcceptsStmt(cfg, Assigning(kind, source)) && FitsStmt(cfg, Assigning(kind, source))
  {
    assert [MATCH][..0] == [] && MatchFields([MATCH]) == ["a"];
  }

  const WITH := map["a" := IntField(1)]

  lemma TwoNamed(w: World, y: string, fy: Fields, fg: Fields)
    requires w == Stored([Fact(y, fy), Fact("g", fg)])
    ensures y == "y" ==> Lookup(w, "y").facts == [0] && Lookup(w, "g").facts == [1]
    ensures y == "g" ==> Lookup(w, "g").facts == [0, 1]
    ensures w.FieldsOf(0) == fy && w.FieldsOf(1) == fg
  {
    assert w.store == [0, 1] && [0, 1][..1] == [0] && [0][..0] == [];
    assert w.Of(0) == Fact(y, fy) && w.Of(1) == Fact("g", fg);
    assert Named(w, [], "g") == [];
    assert Named(w, [0], "g") == (if y == "g" then [0] else []) && Named(w, [0], "y") == (if y == "y" then [0] else []);
    assert Named(w, [0, 1], "g") == if y == "g" then [0, 1] else [1];
    assert y == "y" ==> Named(w, [0, 1], "y") == [0];
  }

  /** A source without the match field, `$y`: undefined exactly if the fact of `$g` has it. */
  lemma NullInputs(cfg: Config, kind: AssignKind, fg: Fields, m: Memory)
    requires m.w == Stored([Fact("y", map[]), Fact("g", fg)])
    ensures VmExec(cfg, TargetCode(cfg, [Assigning(kind, "y")]).cells, TargetCode(cfg, [Assigning(kind, "y")]).n, m)
            == Stuck
            <==> "a" in fg
  {
    hide VmExec, TargetCode, Lookup;
    TwoNamed(m.w, "y", map[], fg);
    AssigningStuck(cfg, kind, "y", m);
    assert [0][..0] == [];
    if kind.Replacing? {
      var ds := Unmerged(m.w, [1]);
      assert MergeAll(ds, [], ["a"]) == Merged(ds, []) && ds.slots == [Some(1)];
      assert ds.slots[0].Some? && ds.w.FieldsOf(ds.slots[0].value) == fg;
      assert Ahead(ds, 0, "a") <==> "a" in fg;
      assert MergesNull(m.w, [0], [1], ["a"], 0) <==> "a" in fg;
    } else {
      assert m.w.FieldsOf([1][0]) == fg;
      assert 1 in [1] && (ReadsNull(m.w, 0, [1], ["a"]) <==> "a" in fg);
      assert GoesWrong(m.w, [0], [1], ["a"], kind.Partial?, 0) <==> "a" in fg;
    }
    assert WrongAt(m.w, kind, [0], [1], 0) <==> "a" in fg;
  }

  /** Two facts updated by themselves: undefined exactly if the assignment is a full one. */
  lemma SelfInputs(cfg: Config, kind: AssignKind, m: Memory)
    requires !kind.Replacing? && m.w == Stored([Fact("g", WITH), Fact("g", WITH)])
    ensures VmExec(cfg, TargetCode(cfg, [Assigning(kind, "g")]).cells, TargetCode(cfg, [Assigning(kind, "g")]).n, m)
            == Stuck
            <==> kind.Full?
  {
    hide VmExec, TargetCode, Lookup;
    TwoNamed(m.w, "g", WITH, WITH);
    AssigningStuck(cfg, kind, "g", m);
    var two := [0, 1];
    assert two[..0] == [];
    if kind.Full? {
      assert two[0] == 0 && "a" in m.w.FieldsOf(two[1]);
      assert two[1] in two[1..] && Recurs(m.w, 0, two, ["a"]);
      assert WrongAt(m.w, kind, two, two, 0);
    } else {
      forall i | 0 <= i < 2 ensures !WrongAt(m.w, kind, two, two, i) {
        assert "a" in m.w.FieldsOf(two[i]);
      }
    }
  }
}
