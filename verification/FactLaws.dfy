/** What FILTER, UPDATE and REPLACE achieve (src/vm-instr.c:245-540). */
module FactLaws {
  import opened Words
  import opened Facts

  // ------------------------------------------------------------------
  // FILTER
  // ------------------------------------------------------------------

  /** A field has the type of an operand, and has its contents. */
  predicate OfType(f: Field, v: Value) {
    (f.IntField? && v.Int?) || (f.DblField? && v.Dbl?) || (f.StrField? && v.Str?)
  }

  predicate Equals(f: Field, v: Value) {
    || (f.IntField? && v.Int? && f.i == v.i)
    || (f.DblField? && v.Dbl? && f.d == v.d)
    || (f.StrField? && v.Str? && f.s == v.s)
  }

  /** A selector: a missing field fails an equality and passes a negation; a field
      has to be of the type of the operand, and equal to it or not. */
  predicate Passes(f: Fields, t: Test) {
    if t.field in f then OfType(f[t.field], t.value) && (Equals(f[t.field], t.value) <==> !t.neq) else t.neq
  }

  /** The field is there, with another type. */
  predicate TypesClash(f: Fields, t: Test) {
    t.field in f && !OfType(f[t.field], t.value)
  }

  lemma KeepsIs(f: Fields, t: Test)
    ensures Keeps(f, t) == if TypesClash(f, t) then None else Some(Passes(f, t))
  {
  }

  /** A fact passes every selector. */
  predicate Satisfies(f: Fields, tests: seq<Test>) {
    forall i | 0 <= i < |tests| :: Passes(f, tests[i])
  }

  /** The facts of a list that pass every selector, in order. */
  function Selected(w: World, refs: seq<Ref>, tests: seq<Test>): seq<Ref> {
    if refs == [] then []
    else
      var rest, last := Selected(w, refs[..|refs| - 1], tests), refs[|refs| - 1];
      if Satisfies(w.FieldsOf(last), tests) then rest + [last] else rest
  }

  /** Applying one selector to the facts others have already selected. */
  lemma {:induction false} FilterOneSelects(w: World, refs: seq<Ref>, tests: seq<Test>, t: Test)
    ensures var kept := FilterOne(w, Selected(w, refs, tests), t);
            kept.Some? ==> kept.value == Selected(w, refs, [t] + tests)
  {
    if refs != [] {
      var init, last := refs[..|refs| - 1], refs[|refs| - 1];
      FilterOneSelects(w, init, tests, t);
      var f := w.FieldsOf(last);
      assert Satisfies(f, [t] + tests) <==> Satisfies(f, tests) && Passes(f, t) by {
        assert forall i | 0 <= i < |tests| :: ([t] + tests)[i + 1] == tests[i];
        assert ([t] + tests)[0] == t;
      }
      if Satisfies(f, tests) {
        var sel := Selected(w, refs, tests);
        assert sel[..|sel| - 1] == Selected(w, init, tests);
      }
    }
  }

  lemma {:induction false} FilterAllSelects(w: World, refs: seq<Ref>, done: seq<Test>, tests: seq<Test>)
    ensures var kept := FilterAll(w, Selected(w, refs, done), tests);
            kept.Some? ==> kept.value == Selected(w, refs, tests + done)
    decreases |tests|
  {
    if tests == [] {
      assert tests + done == done;
    } else {
      var t, init := tests[|tests| - 1], tests[..|tests| - 1];
      FilterOneSelects(w, refs, done, t);
      FilterAllSelects(w, refs, [t] + done, init);
      assert tests + done == init + ([t] + done);
    }
  }

  lemma {:induction false} SelectedByNone(w: World, refs: seq<Ref>)
    ensures Selected(w, refs, []) == refs
  {
    if refs != [] {
      SelectedByNone(w, refs[..|refs| - 1]);
    }
  }

  /** A FILTER that completes leaves exactly the facts that pass all selectors,
      in their order. */
  lemma FilterLaw(w: World, refs: seq<Ref>, tests: seq<Test>)
    ensures FilterAll(w, refs, tests).Some? ==> FilterAll(w, refs, tests).value == Selected(w, refs, tests)
  {
    SelectedByNone(w, refs);
    FilterAllSelects(w, refs, [], tests);
    assert tests + [] == tests;
  }

  /** FILTER raises exactly if some fact that passes all the selectors after
      one has the field of that one with a type its operand does not have. */
  lemma {:induction false} FilterRaises(w: World, refs: seq<Ref>, tests: seq<Test>)
    ensures FilterAll(w, refs, tests).None?
       <==> exists i, r | 0 <= i < |tests| && r in refs ::
              Satisfies(w.FieldsOf(r), tests[i + 1..]) && TypesClash(w.FieldsOf(r), tests[i])
    decreases |tests|
  {
    if tests != [] {
      var n := |tests| - 1;
      var t, init := tests[n], tests[..n];
      FilterOneRaises(w, refs, t);
      FilterOneSelects(w, refs, [], t);
      SelectedByNone(w, refs);
      var kept := FilterOne(w, refs, t);
      assert tests[n + 1..] == [];
      if kept.Some? {
        FilterRaises(w, kept.value, init);
        SelectedMembers(w, refs, [t]);
        assert [t] + [] == [t];
        if i, r :| 0 <= i < n && r in kept.value
                   && Satisfies(w.FieldsOf(r), init[i + 1..]) && TypesClash(w.FieldsOf(r), init[i]) {
          SatisfiesLater(w.FieldsOf(r), tests, i);
          assert tests[i] == init[i];
          assert r in refs && Satisfies(w.FieldsOf(r), tests[i + 1..]);
        }
        if i, r :| 0 <= i < |tests| && r in refs
                   && Satisfies(w.FieldsOf(r), tests[i + 1..]) && TypesClash(w.FieldsOf(r), tests[i]) {
          assert i < n;
          SatisfiesLater(w.FieldsOf(r), tests, i);
          assert init[i] == tests[i] && r in kept.value;
        }
      } else {
        var r :| r in refs && TypesClash(w.FieldsOf(r), t);
        assert Satisfies(w.FieldsOf(r), tests[n + 1..]);
      }
    }
  }

  lemma SatisfiesLater(f: Fields, tests: seq<Test>, i: nat)
    requires i + 1 < |tests|
    ensures var n := |tests| - 1;
            Satisfies(f, tests[i + 1..]) <==> Satisfies(f, tests[..n][i + 1..]) && Satisfies(f, [tests[n]])
  {
    var n := |tests| - 1;
    assert tests[i + 1..] == tests[..n][i + 1..] + [tests[n]];
    SatisfiesBoth(f, tests[..n][i + 1..], [tests[n]]);
  }

  lemma SatisfiesBoth(f: Fields, a: seq<Test>, b: seq<Test>)
    ensures Satisfies(f, a + b) <==> Satisfies(f, a) && Satisfies(f, b)
  {
    assert forall i | 0 <= i < |a| :: (a + b)[i] == a[i];
    assert forall i | 0 <= i < |b| :: (a + b)[|a| + i] == b[i];
  }

  lemma {:induction false} FilterOneRaises(w: World, refs: seq<Ref>, t: Test)
    ensures FilterOne(w, refs, t).None? <==> exists r | r in refs :: TypesClash(w.FieldsOf(r), t)
  {
    if refs != [] {
      var init, last := refs[..|refs| - 1], refs[|refs| - 1];
      FilterOneRaises(w, init, t);
      assert forall r :: r in refs <==> r in init || r == last;
    }
  }

  lemma {:induction false} SelectedMembers(w: World, refs: seq<Ref>, tests: seq<Test>)
    ensures forall r :: r in Selected(w, refs, tests) <==> r in refs && Satisfies(w.FieldsOf(r), tests)
  {
    if refs != [] {
      var init, last := refs[..|refs| - 1], refs[|refs| - 1];
      SelectedMembers(w, init, tests);
      assert forall r :: r in refs <==> r in init || r == last;
    }
  }

  /** The first clash of a FILTER: selector `k` meets fact `i` with a type it does
      not have, and up to there every fact has passed every selector applied. */
  predicate CleanClash(w: World, refs: seq<Ref>, tests: seq<Test>, k: nat, i: nat)
    requires k < |tests| && i < |refs|
  {
    && TypesClash(w.FieldsOf(refs[i]), tests[k])
    && (forall j | 0 <= j < i :: Passes(w.FieldsOf(refs[j]), tests[k]))
    && (forall j | 0 <= j < |refs| :: Satisfies(w.FieldsOf(refs[j]), tests[k + 1..]))
  }

  /** When unwinding a FILTER that raises is defined: exactly if it clashes before
      it has dropped any fact.  Otherwise the global is left with fewer facts than
      it counts. */
  lemma {:induction false} FilterTorn(w: World, refs: seq<Ref>, tests: seq<Test>)
    ensures FilterAll(w, refs, tests).None? && !Torn(w, refs, tests, |refs|)
       <==> exists k, i | 0 <= k < |tests| && 0 <= i < |refs| :: CleanClash(w, refs, tests, k, i)
    decreases |tests|
  {
    if tests != [] {
      var n := |tests| - 1;
      var t, init := tests[n], tests[..n];
      var kept := FilterOne(w, refs, t);
      FilterOneRaises(w, refs, t);
      assert tests[n + 1..] == [];
      if kept.None? {
        DropsNone(w, refs, t);
        forall k, i | 0 <= k < n && 0 <= i < |refs| ensures !CleanClash(w, refs, tests, k, i) {
          LastPassed(w, refs, tests, k);
        }
        if !Drops(w, refs, t) {
          var i :| 0 <= i < |refs| && ClashAt(w, refs, t, i);
          assert CleanClash(w, refs, tests, n, i);
        } else {
          forall i | 0 <= i < |refs| ensures !CleanClash(w, refs, tests, n, i) {
            assert !ClashAt(w, refs, t, i);
          }
        }
      } else if |kept.value| == |refs| {
        KeptAll(w, refs, t);
        FilterTorn(w, refs, init);
        CleanLater(w, refs, tests, init);
      } else {
        KeptAll(w, refs, t);
        TornStays(w, kept.value, init, |refs|);
        forall k, i | 0 <= k < |tests| && 0 <= i < |refs| ensures !CleanClash(w, refs, tests, k, i) {
          if k < n {
            LastPassed(w, refs, tests, k);
          }
        }
      }
    }
  }

  /** One selector that clashes at fact `i` and has kept all facts before. */
  predicate ClashAt(w: World, refs: seq<Ref>, t: Test, i: nat)
    requires i < |refs|
  {
    && TypesClash(w.FieldsOf(refs[i]), t)
    && forall j | 0 <= j < i :: Passes(w.FieldsOf(refs[j]), t)
  }

  lemma {:induction false} DropsNone(w: World, refs: seq<Ref>, t: Test)
    requires FilterOne(w, refs, t).None?
    ensures !Drops(w, refs, t) <==> exists i | 0 <= i < |refs| :: ClashAt(w, refs, t, i)
  {
    var init, last := refs[..|refs| - 1], refs[|refs| - 1];
    if FilterOne(w, init, t).None? {
      DropsNone(w, init, t);
      FilterOneRaises(w, init, t);
      assert forall i | 0 <= i < |init| :: ClashAt(w, refs, t, i) <==> ClashAt(w, init, t, i);
      var j :| 0 <= j < |init| && TypesClash(w.FieldsOf(init[j]), t);
      assert !ClashAt(w, refs, t, |init|);
    } else {
      KeptAll(w, init, t);
      FilterOneRaises(w, init, t);
      assert TypesClash(w.FieldsOf(last), t);
      assert forall i | 0 <= i < |init| :: !ClashAt(w, refs, t, i);
      assert forall j | 0 <= j < |init| :: refs[j] == init[j];
      if |FilterOne(w, init, t).value| == |init| {
        forall j | 0 <= j < |init| ensures Passes(w.FieldsOf(refs[j]), t) {
          assert refs[j] == init[j];
        }
        assert ClashAt(w, refs, t, |init|);
      } else {
        var j :| 0 <= j < |init| && !Passes(w.FieldsOf(init[j]), t);
        assert refs[j] == init[j];
      }
    }
  }

  /** Nothing is dropped exactly if every fact passes. */
  lemma {:induction false} KeptAll(w: World, refs: seq<Ref>, t: Test)
    requires FilterOne(w, refs, t).Some?
    ensures var kept := FilterOne(w, refs, t).value;
            && |kept| <= |refs|
            && (|kept| == |refs| <==> forall j | 0 <= j < |refs| :: Passes(w.FieldsOf(refs[j]), t))
            && (|kept| == |refs| ==> kept == refs)
  {
    if refs != [] {
      KeptAll(w, refs[..|refs| - 1], t);
    }
  }

  lemma {:induction false} TornStays(w: World, refs: seq<Ref>, tests: seq<Test>, had: nat)
    requires |refs| < had
    ensures Torn(w, refs, tests, had)
    decreases |tests|
  {
    if tests != [] {
      var t := tests[|tests| - 1];
      if FilterOne(w, refs, t).Some? {
        KeptAll(w, refs, t);
        TornStays(w, FilterOne(w, refs, t).value, tests[..|tests| - 1], had);
      }
    }
  }

  /** A clash at an earlier selector needs all facts to pass the last one. */
  lemma LastPassed(w: World, refs: seq<Ref>, tests: seq<Test>, k: nat)
    requires k + 1 < |tests|
    ensures (forall j | 0 <= j < |refs| :: Satisfies(w.FieldsOf(refs[j]), tests[k + 1..])) ==>
              forall j | 0 <= j < |refs| :: Passes(w.FieldsOf(refs[j]), tests[|tests| - 1])
  {
    var later := tests[k + 1..];
    assert later[|later| - 1] == tests[|tests| - 1];
  }

  lemma CleanLater(w: World, refs: seq<Ref>, tests: seq<Test>, init: seq<Test>)
    requires tests != [] && init == tests[..|tests| - 1]
    requires forall j | 0 <= j < |refs| :: Passes(w.FieldsOf(refs[j]), tests[|tests| - 1])
    ensures (exists k, i | 0 <= k < |tests| && 0 <= i < |refs| :: CleanClash(w, refs, tests, k, i))
       <==> (exists k, i | 0 <= k < |init| && 0 <= i < |refs| :: CleanClash(w, refs, init, k, i))
  {
    var n := |tests| - 1;
    forall k, i | 0 <= k < n && 0 <= i < |refs|
      ensures CleanClash(w, refs, tests, k, i) <==> CleanClash(w, refs, init, k, i)
    {
      forall j | 0 <= j < |refs|
        ensures Satisfies(w.FieldsOf(refs[j]), tests[k + 1..]) <==> Satisfies(w.FieldsOf(refs[j]), init[k + 1..])
      {
        SatisfiesLater(w.FieldsOf(refs[j]), tests, k);
        assert [tests[n]][0] == tests[n];
      }
    }
  }

  // ------------------------------------------------------------------
  // UPDATE
  // ------------------------------------------------------------------

  predicate Distinct(refs: seq<Ref>) {
    forall i, j | 0 <= i < j < |refs| :: refs[i] != refs[j]
  }

  predicate Apart(src: seq<Ref>, dst: seq<Ref>) {
    forall r | r in src :: r !in dst
  }

  predicate AllHave(w: World, src: seq<Ref>, fields: seq<string>) {
    forall r | r in src :: HasAll(w.FieldsOf(r), fields)
  }

  /** Both have all match fields, with the same contents. */
  predicate Agrees(d: Fields, fields: seq<string>, s: Fields) {
    forall i | 0 <= i < |fields| :: fields[i] in d && fields[i] in s && d[fields[i]] == s[fields[i]]
  }

  lemma MatchesAre(fields: seq<string>)
    ensures forall d, s :: Matches(d, fields, s) <==> Agrees(d, fields, s)
  {
  }

  /** A destination after all sources that match it, in order.  Matching is
      decided by the fields the destination had in the beginning. */
  function Folded(w: World, d: Fields, src: seq<Ref>, fields: seq<string>, partial: bool): Fields {
    if src == [] then d
    else
      var d1 := Folded(w, d, src[..|src| - 1], fields, partial);
      var sf := w.FieldsOf(src[|src| - 1]);
      if !Agrees(d, fields, sf) then d1 else if partial then d1 + sf else sf
  }

  /** The match fields of a destination never change. */
  lemma {:induction false} FoldKeepsMatch(w: World, d: Fields, src: seq<Ref>, fields: seq<string>, partial: bool)
    ensures forall i | 0 <= i < |fields| ::
              var d1 := Folded(w, d, src, fields, partial);
              && (fields[i] in d1 <==> fields[i] in d)
              && (fields[i] in d ==> d1[fields[i]] == d[fields[i]])
  {
    if src != [] {
      FoldKeepsMatch(w, d, src[..|src| - 1], fields, partial);
    }
  }

  lemma AssignedOne(w: World, d: Ref, sf: Fields, partial: bool)
    ensures var w1 := Assigned(w, d, sf, partial);
            && w1.store == w.store && w1.Of(d) == Fact(w.Of(d).name, Assign(w.FieldsOf(d), sf, partial))
            && forall r | r != d :: w1.Of(r) == w.Of(r)
  {
  }

  lemma {:induction false} UpdateDstsLaw(w: World, sf: Fields, dst: seq<Ref>, fields: seq<string>, partial: bool)
    requires Distinct(dst)
    ensures var w1 := UpdateDsts(w, sf, dst, fields, partial);
            && w1.store == w.store
            && (forall j | 0 <= j < |dst| ::
                  var d := w.FieldsOf(dst[j]);
                  w1.Of(dst[j])
                  == Fact(w.Of(dst[j]).name, if Agrees(d, fields, sf) then Assign(d, sf, partial) else d))
            && (forall r | r !in dst :: w1.Of(r) == w.Of(r))
  {
    MatchesAre(fields);
    hide Matches, Agrees, Assign, Assigned;
    if dst != [] {
      var n := |dst| - 1;
      UpdateDstsLaw(w, sf, dst[..n], fields, partial);
      AssignedOne(UpdateDsts(w, sf, dst[..n], fields, partial), dst[n], sf, partial);
    }
  }

  predicate HasPartner(w: World, dst: seq<Ref>, fields: seq<string>, sf: Fields) {
    exists j | 0 <= j < |dst| :: Agrees(w.FieldsOf(dst[j]), fields, sf)
  }

  predicate EachMatched(w: World, src: seq<Ref>, dst: seq<Ref>, fields: seq<string>) {
    forall i | 0 <= i < |src| :: HasPartner(w, dst, fields, w.FieldsOf(src[i]))
  }

  /** The facts after an UPDATE by the sources `src`. */
  ghost predicate UpdatedBy(w: World, w1: World, src: seq<Ref>, dst: seq<Ref>, fields: seq<string>, partial: bool) {
    && w1.store == w.store
    && (forall j | 0 <= j < |dst| ::
          w1.Of(dst[j]) == Fact(w.Of(dst[j]).name, Folded(w, w.FieldsOf(dst[j]), src, fields, partial)))
    && (forall r | r !in dst :: w1.Of(r) == w.Of(r))
  }

  /** Source `i` is the first without a partner; the ones before it have been assigned. */
  ghost predicate StopsAt(w: World, w1: World, src: seq<Ref>, i: nat, dst: seq<Ref>, fields: seq<string>, partial: bool)
    requires i < |src|
  {
    && EachMatched(w, src[..i], dst, fields) && !HasPartner(w, dst, fields, w.FieldsOf(src[i]))
    && UpdatedBy(w, w1, src[..i], dst, fields, partial)
  }

  /** One more source. */
  lemma UpdateStepLaw(w: World, w1: World, init: seq<Ref>, s: Ref, dst: seq<Ref>, fields: seq<string>, partial: bool)
    requires Distinct(dst) && s !in dst && w1.Of(s) == w.Of(s)
    requires UpdatedBy(w, w1, init, dst, fields, partial)
    ensures var e := UpdateSrc(w1, s, dst, fields, partial);
            && (HasAll(w.FieldsOf(s), fields) ==> !e.Undefined?)
            && (if HasPartner(w, dst, fields, w.FieldsOf(s)) then e.Done? else e.Undefined? || e == Error(ENOENT, w1))
            && (e.Done? ==> UpdatedBy(w, e.w, init + [s], dst, fields, partial))
  {
    hide UpdateDsts, Matches, Agrees, HasPartner, Dereferences;
    var sf := w.FieldsOf(s);
    assert HasAll(sf, fields) <==> FirstMissing(sf, fields) == |fields|;
    PartnersStay(w, w1, init, dst, fields, partial, sf);
    UpdateDstsLaw(w1, sf, dst, fields, partial);
    assert (init + [s])[..|init|] == init;
  }

  /** Assigning sources changes nothing about what matches. */
  lemma PartnersStay(w: World, w1: World, init: seq<Ref>, dst: seq<Ref>, fields: seq<string>, partial: bool, sf: Fields)
    requires UpdatedBy(w, w1, init, dst, fields, partial)
    ensures forall j | 0 <= j < |dst| ::
              Agrees(w1.FieldsOf(dst[j]), fields, sf) <==> Agrees(w.FieldsOf(dst[j]), fields, sf)
    ensures SomeMatch(w1, dst, fields, sf) <==> HasPartner(w, dst, fields, sf)
    ensures HasPartner(w, dst, fields, sf) ==> HasAll(sf, fields)
  {
    MatchesAre(fields);
    hide Matches;
    forall j | 0 <= j < |dst|
      ensures Agrees(w1.FieldsOf(dst[j]), fields, sf) <==> Agrees(w.FieldsOf(dst[j]), fields, sf)
    {
      FoldKeepsMatch(w, w.FieldsOf(dst[j]), init, fields, partial);
    }
  }

  /** UPDATE of destinations that are none of the sources: it succeeds if and only if
      every source matches some destination, and then every destination is the
      in-order fold of the sources that match it; whatever matches none, and every
      other fact, is unchanged.  If it fails, only the sources before the first that
      matches none have been assigned.  It is defined at least if the sources have
      all match fields. */
  lemma {:induction false} UpdateLaw(w: World, src: seq<Ref>, dst: seq<Ref>, fields: seq<string>, partial: bool)
    requires Distinct(dst) && Apart(src, dst)
    ensures AllHave(w, src, fields) ==> !UpdateAll(w, src, dst, fields, partial).Undefined?
    ensures UpdateAll(w, src, dst, fields, partial).Done? <==> EachMatched(w, src, dst, fields)
    ensures UpdateAll(w, src, dst, fields, partial).Done? ==>
              UpdatedBy(w, UpdateAll(w, src, dst, fields, partial).w, src, dst, fields, partial)
    ensures UpdateAll(w, src, dst, fields, partial).Error? ==>
              && UpdateAll(w, src, dst, fields, partial).err == ENOENT
              && exists i | 0 <= i < |src| :: StopsAt(w, UpdateAll(w, src, dst, fields, partial).w, src, i, dst, fields,
                                                      partial)
  {
    hide UpdateSrc, UpdatedBy, Distinct, HasPartner, EachMatched;
    NoneMatched(w, dst, fields, partial);
    if src != [] {
      var init, s := src[..|src| - 1], src[|src| - 1];
      UpdateLaw(w, init, dst, fields, partial);
      assert init + [s] == src && s in src;
      MoreMatched(w, init, s, dst, fields);
      var before := UpdateAll(w, init, dst, fields, partial);
      if before.Done? {
        OthersSame(w, before.w, init, dst, fields, partial, s);
        UpdateStepLaw(w, before.w, init, s, dst, fields, partial);
        if !HasPartner(w, dst, fields, w.FieldsOf(s)) {
          assert StopsAt(w, before.w, src, |init|, dst, fields, partial);
        }
      } else if before.Error? {
        var i :| 0 <= i < |init| && StopsAt(w, before.w, init, i, dst, fields, partial);
        assert src[..i] == init[..i] && src[i] == init[i];
        assert StopsAt(w, before.w, src, i, dst, fields, partial);
      }
    }
  }

  lemma NoneMatched(w: World, dst: seq<Ref>, fields: seq<string>, partial: bool)
    ensures EachMatched(w, [], dst, fields) && UpdatedBy(w, w, [], dst, fields, partial)
  {
  }

  lemma MoreMatched(w: World, init: seq<Ref>, s: Ref, dst: seq<Ref>, fields: seq<string>)
    ensures EachMatched(w, init + [s], dst, fields)
       <==> EachMatched(w, init, dst, fields) && HasPartner(w, dst, fields, w.FieldsOf(s))
  {
    hide HasPartner;
    var src := init + [s];
    assert forall i | 0 <= i < |init| :: src[i] == init[i];
    assert src[|init|] == s;
  }

  lemma OthersSame(w: World, w1: World, src: seq<Ref>, dst: seq<Ref>, fields: seq<string>, partial: bool, s: Ref)
    requires UpdatedBy(w, w1, src, dst, fields, partial) && s !in dst
    ensures w1.Of(s) == w.Of(s)
  {
  }

  // ------------------------------------------------------------------
  // REPLACE
  // ------------------------------------------------------------------

  /** The match fields of a fact. */
  function Key(f: Fields, fields: seq<string>): seq<Option<Field>> {
    seq(|fields|, i requires 0 <= i < |fields| => if fields[i] in f then Some(f[fields[i]]) else None)
  }

  /** `d` was merged with `s`. */
  predicate MergedFrom(w0: World, w: World, d: Ref, s: Ref, fields: seq<string>) {
    && Agrees(w0.FieldsOf(d), fields, w0.FieldsOf(s))
    && w.Of(d) == Fact(w0.Of(d).name, w0.FieldsOf(d) + w0.FieldsOf(s))
  }

  /** Destination `j` is as it was, or merged with one of `done` and out of the way. */
  predicate SlotOk(w0: World, ds: Dests, dst: seq<Ref>, fields: seq<string>, done: seq<Ref>, j: nat)
    requires j < |dst| == |ds.slots|
  {
    || (ds.slots[j] == Some(dst[j]) && ds.w.Of(dst[j]) == w0.Of(dst[j]))
    || (ds.slots[j] == None && exists i | 0 <= i < |done| :: MergedFrom(w0, ds.w, dst[j], done[i], fields))
  }

  ghost predicate Frame(w0: World, ds: Dests, dst: seq<Ref>) {
    && |ds.slots| == |dst|
    && ds.w.store == w0.store
    && (forall r | r !in dst :: ds.w.Of(r) == w0.Of(r))
  }

  /** A source found a destination. */
  predicate Landed(w0: World, ds: Dests, dst: seq<Ref>, fields: seq<string>, s: Ref)
    requires |ds.slots| == |dst|
  {
    exists j | 0 <= j < |dst| :: ds.slots[j] == None && MergedFrom(w0, ds.w, dst[j], s, fields)
  }

  ghost predicate Progress(w0: World, ds: Dests, dst: seq<Ref>, fields: seq<string>, done: seq<Ref>, left: seq<Ref>) {
    && Frame(w0, ds, dst)
    && (forall j | 0 <= j < |dst| :: SlotOk(w0, ds, dst, fields, done, j))
    && (forall r | r in left :: r in done)
    && (forall r | r in done :: r in left || Landed(w0, ds, dst, fields, r))
  }

  /** The scan at a destination that matches. */
  function Hit(ds: Dests, sf: Fields, j: nat): Dests
    requires j < |ds.slots| && ds.slots[j].Some? && ds.nfact > 0
  {
    var r := ds.slots[j].value;
    Dests(ds.w.With(r, ds.w.FieldsOf(r) + sf), ds.slots[j := None], ds.nfact - 1, true)
  }

  lemma HitLaw(w0: World, ds: Dests, dst: seq<Ref>, fields: seq<string>, done: seq<Ref>, s: Ref, j: nat)
    requires Distinct(dst) && s !in dst && Frame(w0, ds, dst)
    requires forall i | 0 <= i < |dst| :: SlotOk(w0, ds, dst, fields, done + [s], i)
    requires j < |ds.slots| && ds.slots[j].Some? && ds.nfact > 0
    requires Agrees(ds.w.FieldsOf(ds.slots[j].value), fields, w0.FieldsOf(s))
    ensures var ds1 := Hit(ds, w0.FieldsOf(s), j);
            && Frame(w0, ds1, dst) && Landed(w0, ds1, dst, fields, s)
            && (forall i | 0 <= i < |dst| :: SlotOk(w0, ds1, dst, fields, done + [s], i))
            && (forall i | 0 <= i < |dst| && ds.slots[i] == None ::
                  ds1.slots[i] == None && ds1.w.Of(dst[i]) == ds.w.Of(dst[i]))
  {
    var d, ds1 := dst[j], Hit(ds, w0.FieldsOf(s), j);
    assert SlotOk(w0, ds, dst, fields, done + [s], j);
    assert MergedFrom(w0, ds1.w, d, s, fields);
    forall i | 0 <= i < |dst| ensures SlotOk(w0, ds1, dst, fields, done + [s], i) {
      assert SlotOk(w0, ds, dst, fields, done + [s], i);
      if i == j {
        assert (done + [s])[|done|] == s;
      } else {
        assert ds1.w.Of(dst[i]) == ds.w.Of(dst[i]);
        if ds.slots[i] == None {
          var k :| 0 <= k < |done + [s]| && MergedFrom(w0, ds.w, dst[i], (done + [s])[k], fields);
          assert MergedFrom(w0, ds1.w, dst[i], (done + [s])[k], fields);
        }
      }
    }
  }

  lemma {:induction false} ScanLaw(w0: World, ds: Dests, dst: seq<Ref>, fields: seq<string>, done: seq<Ref>, s: Ref,
                                   j: nat)
    requires Distinct(dst) && s !in dst && HasAll(w0.FieldsOf(s), fields)
    requires Frame(w0, ds, dst)
    requires forall i | 0 <= i < |dst| :: SlotOk(w0, ds, dst, fields, done + [s], i)
    requires ds.hit ==> Landed(w0, ds, dst, fields, s)
    ensures var ds1 := Scan(ds, w0.FieldsOf(s), fields, j);
            && Frame(w0, ds1, dst)
            && (forall i | 0 <= i < |dst| :: SlotOk(w0, ds1, dst, fields, done + [s], i))
            && (ds1.hit ==> Landed(w0, ds1, dst, fields, s))
            && (forall i | 0 <= i < |dst| && ds.slots[i] == None ::
                  ds1.slots[i] == None && ds1.w.Of(dst[i]) == ds.w.Of(dst[i]))
    decreases |ds.slots| - j
  {
    MatchesAre(fields);
    hide Matches, Agrees, SlotOk, Landed, Distinct;
    var sf := w0.FieldsOf(s);
    if j < ds.nfact && j < |ds.slots| {
      if ds.slots[j].Some? && Agrees(ds.w.FieldsOf(ds.slots[j].value), fields, sf) {
        HitLaw(w0, ds, dst, fields, done, s, j);
        ScanLaw(w0, Hit(ds, sf, j), dst, fields, done, s, j + 1);
      } else {
        ScanLaw(w0, ds, dst, fields, done, s, j + 1);
      }
    }
  }

  /** One more source. */
  lemma MergeStepLaw(w: World, ds: Dests, left: seq<Ref>, init: seq<Ref>, s: Ref, dst: seq<Ref>, fields: seq<string>)
    requires Distinct(dst) && s !in dst && HasAll(w.FieldsOf(s), fields)
    requires Progress(w, ds, dst, fields, init, left)
    ensures var m := MergeSrc(ds, left, s, fields);
            m.Merged? && Progress(w, m.ds, dst, fields, init + [s], m.left)
  {
    hide MergedFrom, Matches, Agrees, Scan;
    assert ds.w.Of(s) == w.Of(s);
    assert FirstMissing(w.FieldsOf(s), fields) == |fields|;
    var ds0 := ds.(hit := false);
    forall j | 0 <= j < |dst| ensures SlotOk(w, ds0, dst, fields, init + [s], j) {
      assert SlotOk(w, ds, dst, fields, init, j);
      if ds.slots[j] == None {
        var i :| 0 <= i < |init| && MergedFrom(w, ds.w, dst[j], init[i], fields);
        assert (init + [s])[i] == init[i];
      }
    }
    ScanLaw(w, ds0, dst, fields, init, s, 0);
    var ds1 := Scan(ds0, w.FieldsOf(s), fields, 0);
    forall r | r in init && r !in left ensures Landed(w, ds1, dst, fields, r) {
      var j :| 0 <= j < |dst| && ds.slots[j] == None && MergedFrom(w, ds.w, dst[j], r, fields);
      MergedStays(w, ds.w, ds1.w, dst[j], r, fields);
    }
    assert forall r :: r in init + [s] <==> r in init || r == s;
  }

  lemma {:induction false} MergeLaw(w: World, src: seq<Ref>, dst: seq<Ref>, fields: seq<string>)
    requires Distinct(dst) && Apart(src, dst) && AllHave(w, src, fields)
    ensures var m := MergeAll(Dests(w, Occupied(dst), |dst|, false), src, fields);
            m.Merged? && Progress(w, m.ds, dst, fields, src, m.left)
  {
    hide MergedFrom, MergeSrc, HasAll;
    var ds0 := Dests(w, Occupied(dst), |dst|, false);
    if src != [] {
      var init, s := src[..|src| - 1], src[|src| - 1];
      assert s in src && forall r | r in init :: r in src;
      MergeLaw(w, init, dst, fields);
      var m := MergeAll(ds0, init, fields);
      MergeStepLaw(w, m.ds, m.left, init, s, dst, fields);
      assert init + [s] == src;
    }
  }

  lemma {:induction false} Removed(store: seq<Ref>, slots: seq<Option<Ref>>)
    ensures forall r :: r in RemoveFrom(store, slots) <==> r in store && !InSlots(r, slots)
  {
    if store != [] {
      var init, last := store[..|store| - 1], store[|store| - 1];
      Removed(init, slots);
      assert forall r :: r in store <==> r in init || r == last;
    }
  }

  lemma {:induction false} Inserted(w: World, refs: seq<Ref>, name: string)
    ensures var w1 := InsertAll(w, refs, name);
            && w1.store == w.store + refs
            && (forall r | r in refs :: w1.Of(r) == Fact(name, w.FieldsOf(r)))
            && (forall r | r !in refs :: w1.Of(r) == w.Of(r))
  {
    if refs != [] {
      var init, last := refs[..|refs| - 1], refs[|refs| - 1];
      Inserted(w, init, name);
      assert forall r :: r in refs <==> r in init || r == last;
      assert w.store + refs == w.store + init + [last];
    }
  }

  /** What becomes of a destination: merged with a source, or removed. */
  predicate DstDone(w: World, w1: World, src: seq<Ref>, fields: seq<string>, d: Ref) {
    d in w1.store ==> exists s | s in src :: MergedFrom(w, w1, d, s, fields)
  }

  /** What becomes of a source: inserted under the name of the destinations, or
      merged into a destination that is still in the store. */
  predicate SrcDone(w: World, w1: World, dst: seq<Ref>, fields: seq<string>, name: string, s: Ref) {
    if s in w1.store then w1.Of(s) == Fact(name, w.FieldsOf(s))
    else exists d | d in dst :: d in w1.store && MergedFrom(w, w1, d, s, fields)
  }

  ghost predicate ReplacedBy(w: World, w1: World, src: seq<Ref>, dst: seq<Ref>, fields: seq<string>, name: string) {
    && (forall d | d in dst :: DstDone(w, w1, src, fields, d))
    && (forall s | s in src :: SrcDone(w, w1, dst, fields, name, s))
    && (forall r | r !in dst && r !in src :: w1.Of(r) == w.Of(r) && (r in w1.store <==> r in w.store))
  }

  lemma MergedStays(w0: World, w: World, w1: World, d: Ref, s: Ref, fields: seq<string>)
    requires MergedFrom(w0, w, d, s, fields) && w1.Of(d) == w.Of(d)
    ensures MergedFrom(w0, w1, d, s, fields)
  {
  }

  /** Removing the destinations and inserting the sources that are left. */
  lemma Finished(w: World, ds: Dests, left: seq<Ref>, src: seq<Ref>, dst: seq<Ref>, fields: seq<string>, name: string)
    requires Distinct(dst) && Apart(src, dst)
    requires (forall d | d in dst :: d in w.store) && (forall s | s in src :: s !in w.store)
    requires Progress(w, ds, dst, fields, src, left)
    ensures ReplacedBy(w, InsertAll(ds.w.(store := RemoveFrom(ds.w.store, ds.slots)), left, name), src, dst, fields,
                       name)
  {
    hide MergedFrom, InsertAll, RemoveFrom;
    var w0 := ds.w.(store := RemoveFrom(ds.w.store, ds.slots));
    var w1 := InsertAll(w0, left, name);
    Removed(ds.w.store, ds.slots);
    Inserted(w0, left, name);
    forall j | 0 <= j < |dst| ensures InSlots(dst[j], ds.slots) <==> ds.slots[j] == Some(dst[j]) {
      if i :| 0 <= i < |ds.slots| && ds.slots[i] == Some(dst[j]) {
        assert SlotOk(w, ds, dst, fields, src, i);
      }
    }
    forall r | InSlots(r, ds.slots) ensures r in dst {
      var i :| 0 <= i < |ds.slots| && ds.slots[i] == Some(r);
      assert SlotOk(w, ds, dst, fields, src, i);
    }
    forall d | d in dst ensures DstDone(w, w1, src, fields, d) {
      var j :| 0 <= j < |dst| && dst[j] == d;
      assert SlotOk(w, ds, dst, fields, src, j);
      if ds.slots[j] == None {
        var i :| 0 <= i < |src| && MergedFrom(w, ds.w, d, src[i], fields);
        assert w1.Of(d) == ds.w.Of(d);
        MergedStays(w, ds.w, w1, d, src[i], fields);
      }
    }
    forall s | s in src ensures SrcDone(w, w1, dst, fields, name, s) {
      if s !in left {
        var j :| 0 <= j < |dst| && ds.slots[j] == None && MergedFrom(w, ds.w, dst[j], s, fields);
        assert w1.Of(dst[j]) == ds.w.Of(dst[j]);
        MergedStays(w, ds.w, w1, dst[j], s, fields);
        assert dst[j] in w1.store;
      }
    }
    forall r | r !in dst && r !in src ensures w1.Of(r) == w.Of(r) && (r in w1.store <==> r in w.store) {
      assert !InSlots(r, ds.slots);
    }
  }

  /** REPLACE by fresh sources that have all match fields, of stored destinations:
      it never fails; every destination is merged or removed, every source is
      merged or inserted, and nothing else is touched.  This holds although the
      scan for matches stops early when destinations have been merged away. */
  lemma ReplaceLaw(w: World, src: seq<Ref>, dst: seq<Ref>, fields: seq<string>, name: string)
    requires Distinct(dst) && Apart(src, dst) && AllHave(w, src, fields)
    requires (forall d | d in dst :: d in w.store) && (forall s | s in src :: s !in w.store)
    ensures ReplaceAll(w, src, dst, fields, name).Done?
    ensures ReplacedBy(w, ReplaceAll(w, src, dst, fields, name).w, src, dst, fields, name)
  {
    hide MergeAll, MergedFrom, HasAll;
    var ds0 := Dests(w, Occupied(dst), |dst|, false);
    MergeLaw(w, src, dst, fields);
    var m := if fields == [] then Merged(ds0, src) else MergeAll(ds0, src, fields);
    assert Progress(w, m.ds, dst, fields, src, m.left);
    Finished(w, m.ds, m.left, src, dst, fields, name);
  }

  lemma MergeKey(w: World, w1: World, d: Ref, s: Ref, fields: seq<string>)
    requires HasAll(w.FieldsOf(s), fields) && MergedFrom(w, w1, d, s, fields)
    ensures Key(w1.FieldsOf(d), fields) == Key(w.FieldsOf(s), fields)
  {
  }

  /** The match keys of the replaced facts are those of the sources. */
  lemma ReplaceKeys(w: World, src: seq<Ref>, dst: seq<Ref>, fields: seq<string>, name: string)
    requires Distinct(dst) && Apart(src, dst) && AllHave(w, src, fields)
    requires (forall d | d in dst :: d in w.store) && (forall s | s in src :: s !in w.store)
    ensures ReplaceAll(w, src, dst, fields, name).Done?
    ensures var w1 := ReplaceAll(w, src, dst, fields, name).w;
            (set r | r in w1.store && (r in src || r in dst) :: Key(w1.FieldsOf(r), fields))
            == (set s | s in src :: Key(w.FieldsOf(s), fields))
  {
    ReplaceLaw(w, src, dst, fields, name);
    var w1 := ReplaceAll(w, src, dst, fields, name).w;
    hide *;
    var after := set r | r in w1.store && (r in src || r in dst) :: Key(w1.FieldsOf(r), fields);
    var before := set s | s in src :: Key(w.FieldsOf(s), fields);
    forall k | k in after ensures k in before {
      var r :| r in w1.store && (r in src || r in dst) && Key(w1.FieldsOf(r), fields) == k;
      KeptKey(w, w1, src, dst, fields, name, r);
    }
    forall k | k in before ensures k in after {
      var s :| s in src && Key(w.FieldsOf(s), fields) == k;
      SourceKey(w, w1, src, dst, fields, name, s);
    }
  }

  lemma KeptKey(w: World, w1: World, src: seq<Ref>, dst: seq<Ref>, fields: seq<string>, name: string, r: Ref)
    requires AllHave(w, src, fields) && ReplacedBy(w, w1, src, dst, fields, name)
    requires r in w1.store && (r in src || r in dst) && (r in src ==> r !in dst)
    ensures exists s | s in src :: Key(w1.FieldsOf(r), fields) == Key(w.FieldsOf(s), fields)
  {
    hide MergedFrom, Key, HasAll;
    if r in dst {
      assert DstDone(w, w1, src, fields, r);
      var s :| s in src && MergedFrom(w, w1, r, s, fields);
      MergeKey(w, w1, r, s, fields);
    } else {
      assert SrcDone(w, w1, dst, fields, name, r);
    }
  }

  lemma SourceKey(w: World, w1: World, src: seq<Ref>, dst: seq<Ref>, fields: seq<string>, name: string, s: Ref)
    requires AllHave(w, src, fields) && ReplacedBy(w, w1, src, dst, fields, name)
    requires s in src
    ensures exists r | r in w1.store && (r in src || r in dst) ::
              Key(w1.FieldsOf(r), fields) == Key(w.FieldsOf(s), fields)
  {
    hide MergedFrom, Key, HasAll;
    assert SrcDone(w, w1, dst, fields, name, s);
    if s !in w1.store {
      var d :| d in dst && d in w1.store && MergedFrom(w, w1, d, s, fields);
      MergeKey(w, w1, d, s, fields);
    }
  }

  // ------------------------------------------------------------------
  // SET
  // ------------------------------------------------------------------

  /** Where the fields of a fact come from after `n` copies: a source may be a
      destination of an earlier copy. */
  function Origin(src: seq<Ref>, dst: seq<Ref>, n: nat, r: Ref): Ref
    requires n <= |src| == |dst|
    decreases n
  {
    if n == 0 then r
    else Origin(src, dst, n - 1, if dst[n - 1] == r then src[n - 1] else r)
  }

  lemma {:induction false} OriginInit(src: seq<Ref>, dst: seq<Ref>, n: nat, m: nat, r: Ref)
    requires n <= m <= |src| == |dst|
    ensures Origin(src[..m], dst[..m], n, r) == Origin(src, dst, n, r)
    decreases n
  {
    if n > 0 {
      OriginInit(src, dst, n - 1, m, if dst[n - 1] == r then src[n - 1] else r);
    }
  }

  lemma CopyOne(w: World, s: Ref, d: Ref)
    ensures var w1 := w.Reset(d, w.FieldsOf(s));
            && w1.store == w.store && w1.Of(d) == Fact(w.Of(d).name, w.FieldsOf(s))
            && forall r | r != d :: w1.Of(r) == w.Of(r)
  {
  }

  /** SET of as many facts, whether or not sources are among the destinations:
      every fact keeps its name and has the fields its origin had before. */
  lemma {:induction false} SetTraces(w: World, src: seq<Ref>, dst: seq<Ref>, r: Ref)
    requires |src| == |dst|
    ensures CopyEach(w, src, dst).store == w.store
    ensures CopyEach(w, src, dst).Of(r) == Fact(w.Of(r).name, w.FieldsOf(Origin(src, dst, |src|, r)))
  {
    if src != [] {
      var n := |src| - 1;
      var w0 := CopyEach(w, src[..n], dst[..n]);
      var from := if dst[n] == r then src[n] else r;
      SetTraces(w, src[..n], dst[..n], from);
      SetTraces(w, src[..n], dst[..n], r);
      OriginInit(src, dst, n, n, from);
      CopyOne(w0, src[n], dst[n]);
      assert CopyEach(w, src, dst) == w0.Reset(dst[n], w0.FieldsOf(src[n]));
    }
  }

  lemma {:induction false} OriginSelf(src: seq<Ref>, dst: seq<Ref>, n: nat, r: Ref)
    requires n <= |src| == |dst| && r !in dst[..n]
    ensures Origin(src, dst, n, r) == r
    decreases n
  {
    if n > 0 {
      assert dst[..n] == dst[..n - 1] + [dst[n - 1]];
      OriginSelf(src, dst, n - 1, r);
    }
  }

  lemma {:induction false} OriginLast(src: seq<Ref>, dst: seq<Ref>, n: nat, j: nat)
    requires j < n <= |src| == |dst| && dst[j] !in dst[j + 1..n] && src[j] !in dst[..j]
    ensures Origin(src, dst, n, dst[j]) == src[j]
    decreases n
  {
    if n == j + 1 {
      OriginSelf(src, dst, j, src[j]);
    } else {
      assert dst[j + 1..n] == dst[j + 1..n - 1] + [dst[n - 1]];
      OriginLast(src, dst, n - 1, j);
    }
  }

  /** A destination gets the fields its source had before the SET, unless the
      source has been a destination by then; other facts do not change. */
  lemma SetCopies(w: World, src: seq<Ref>, dst: seq<Ref>)
    requires |src| == |dst| && Distinct(dst)
    ensures var w1 := CopyEach(w, src, dst);
            && w1.store == w.store
            && (forall j | 0 <= j < |dst| && src[j] !in dst[..j] ::
                  w1.Of(dst[j]) == Fact(w.Of(dst[j]).name, w.FieldsOf(src[j])))
            && (forall r | r !in dst :: w1.Of(r) == w.Of(r))
  {
    var w1 := CopyEach(w, src, dst);
    SetTraces(w, src, dst, 0);
    forall j | 0 <= j < |dst| && src[j] !in dst[..j]
      ensures w1.Of(dst[j]) == Fact(w.Of(dst[j]).name, w.FieldsOf(src[j]))
    {
      SetTraces(w, src, dst, dst[j]);
      OriginLast(src, dst, |dst|, j);
    }
    forall r | r !in dst ensures w1.Of(r) == w.Of(r) {
      SetTraces(w, src, dst, r);
      OriginSelf(src, dst, |dst|, r);
    }
  }

  /** The copy of source `i` is a new fact, and the one the store has next. */
  predicate CopyAt(w: World, w1: World, src: seq<Ref>, name: string, i: nat)
    requires i < |src|
  {
    && |w.store| + i < |w1.store| && w1.store[|w.store| + i] == w.next + i
    && w1.Of(w.next + i) == Fact(name, w.FieldsOf(src[i]))
  }

  /** SET of a name: the store gains a new fact of that name for every source, in
      order, and no fact changes. */
  lemma {:induction false} SetInserts(w: World, src: seq<Ref>, name: string)
    requires forall i | 0 <= i < |src| :: src[i] < w.next
    ensures var w1 := InsertCopies(w, src, name);
            && w1.next == w.next + |src| && |w1.store| == |w.store| + |src| && w.store <= w1.store
            && (forall i | 0 <= i < |src| :: CopyAt(w, w1, src, name, i))
            && (forall r: Ref | r < w.next :: w1.Of(r) == w.Of(r))
  {
    if src != [] {
      var n := |src| - 1;
      SetInserts(w, src[..n], name);
      var w0, w1 := InsertCopies(w, src[..n], name), InsertCopies(w, src, name);
      assert w1 == w0.(heap := w0.heap[w0.next := Fact(name, w0.FieldsOf(src[n]))], store := w0.store + [w0.next],
                       next := w0.next + 1);
      hide InsertCopies;
      forall i | 0 <= i < |src|
        ensures CopyAt(w, w1, src, name, i)
      {
        if i < n {
          assert CopyAt(w, w0, src[..n], name, i);
        }
      }
    }
  }

  /** SET, whatever its operands: a name is given to the fact itself if it has none, and
      to copies otherwise; existing facts are copied into if there are as many. */
  lemma SetLaw(w: World, src: Global, dst: Global)
    ensures var e := SetGlobal(w, src, dst);
            if dst.name.Some? && dst.facts == [] then
              if |src.facts| == 1 && w.Of(src.facts[0]).name == "__vm_global" then
                && e.Done? && e.w.store == w.store + src.facts
                && e.w.Of(src.facts[0]) == Fact(dst.name.value, w.FieldsOf(src.facts[0]))
                && forall r | r != src.facts[0] :: e.w.Of(r) == w.Of(r)
              else e == Done((), InsertCopies(w, src.facts, dst.name.value))
            else if |src.facts| == |dst.facts| then e == Done((), CopyEach(w, src.facts, dst.facts))
            else e == Error(EINVAL, w)
  {
    hide InsertCopies, CopyEach;
  }

  // ------------------------------------------------------------------
  // SET FIELD and GET FIELD
  // ------------------------------------------------------------------

  /** GET FIELD gives the contents of the field of a single fact; a string is the one
      of the fact. */
  lemma GetFieldLaw(w: World, g: Global, field: string)
    ensures var e := GetFieldOf(w, g, field);
            && (g.facts == [] ==> e == Error(ENOENT, w))
            && (|g.facts| > 1 ==> e == Error(EINVAL, w))
            && (|g.facts| == 1 ==>
                  var f := w.Of(g.facts[0]).fields;
                  && (field !in f ==> e == Error(ENOENT, w))
                  && (field in f && f[field].IntField? ==> e == Done(Int(f[field].i), w))
                  && (field in f && f[field].DblField? ==> e == Done(Dbl(f[field].d), w))
                  && (field in f && f[field].StrField? ==>
                        e == Done(Str(f[field].s, Some(Loan(Place(g.facts[0], field), w.calls))), w)))
  {
  }

  /** The field with the contents of a value. */
  predicate Contains(f: Fields, field: string, v: Value) {
    field in f && Equals(f[field], v)
  }

  /** SET FIELD of a single fact to a number or a string: the field has that, nothing else
      has changed, and GET FIELD reads it back. */
  lemma SetFieldLaw(w: World, g: Global, field: string, v: Value)
    requires !Dangling(w, v)
    ensures var e := SetFieldOf(w, g, field, v);
            && (g.facts == [] ==> e == Error(ENOENT, w))
            && (|g.facts| > 1 ==> e == Error(EINVAL, w))
            && (|g.facts| == 1 && (v == Nil || v.Glob?) ==> e == Error(EINVAL, w))
            && (|g.facts| == 1 && (v.Int? || v.Dbl? || v.Str?) ==>
                  var r := g.facts[0];
                  && e.Done? && e.w.store == w.store && e.w.Of(r).name == w.Of(r).name
                  && Contains(e.w.FieldsOf(r), field, v)
                  && (forall f | f != field :: f in e.w.FieldsOf(r) <==> f in w.FieldsOf(r))
                  && (forall f | f != field && f in w.FieldsOf(r) :: e.w.FieldsOf(r)[f] == w.FieldsOf(r)[f])
                  && (forall q | q != r :: e.w.Of(q) == w.Of(q))
                  && var back := GetFieldOf(e.w, g, field);
                     && back.Done? && (v.Int? ==> back.val == v) && (v.Dbl? ==> back.val == v)
                     && (v.Str? ==> back.val.Str? && back.val.s == v.s))
  {
    hide Dangling;
  }
}
