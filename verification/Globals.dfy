/** The loops behind FILTER, UPDATE and REPLACE (src/vm-instr.c:225-540,
    src/vm-global.c).  A global is an array of fact references that is worked on
    in place; references are released as the loops go along.  Every method is
    proved against the function of `Facts` that says what it does to the facts,
    and against the rule that a global releases each reference it holds once. */
module Globals {
  import opened Words
  import opened Facts

  // ------------------------------------------------------------------
  // Slots
  // ------------------------------------------------------------------

  /** The references in a table of slots, in order. */
  function Live(slots: seq<Option<Ref>>): (refs: seq<Ref>)
    ensures |refs| <= |slots|
  {
    if slots == [] then []
    else
      var rest := Live(slots[..|slots| - 1]);
      match slots[|slots| - 1]
      case None => rest
      case Some(r) => rest + [r]
  }

  lemma {:induction false} LiveSplit(a: seq<Option<Ref>>, b: seq<Option<Ref>>)
    ensures Live(a + b) == Live(a) + Live(b)
  {
    if b == [] {
      assert a + b == a;
    } else {
      var init := b[..|b| - 1];
      LiveSplit(a, init);
      assert (a + b)[..|a + b| - 1] == a + init;
    }
  }

  lemma LivePrefix(slots: seq<Option<Ref>>, i: nat)
    requires i <= |slots|
    ensures Live(slots) == Live(slots[..i]) + Live(slots[i..])
    ensures |Live(slots[..i])| <= |Live(slots)|
  {
    assert slots == slots[..i] + slots[i..];
    LiveSplit(slots[..i], slots[i..]);
  }

  lemma LiveOne(v: Option<Ref>)
    ensures Live([v]) == if v.Some? then [v.value] else []
  {
    assert [v][..0] == [];
  }

  /** The references around slot `j`. */
  lemma LiveAround(slots: seq<Option<Ref>>, j: nat)
    requires j < |slots|
    ensures Live(slots) == Live(slots[..j]) + (Live([slots[j]]) + Live(slots[j + 1..]))
  {
    hide Live;
    LivePrefix(slots, j);
    LivePrefix(slots[j..], 1);
    assert slots[j..][..1] == [slots[j]] && slots[j..][1..] == slots[j + 1..];
  }

  lemma LiveUpdate(slots: seq<Option<Ref>>, j: nat)
    requires j < |slots| && slots[j].Some?
    ensures Live(slots) == Live(slots[..j]) + [slots[j].value] + Live(slots[j + 1..])
    ensures Live(slots[j := None]) == Live(slots[..j]) + Live(slots[j + 1..])
    ensures multiset(Live(slots)) == multiset(Live(slots[j := None])) + multiset{slots[j].value}
    ensures |Live(slots[j := None])| == |Live(slots)| - 1
  {
    hide Live;
    var now := slots[j := None];
    LiveAround(slots, j);
    LiveAround(now, j);
    LiveOne(slots[j]);
    LiveOne(None);
    assert now[..j] == slots[..j] && now[j + 1..] == slots[j + 1..];
    Without(Live(slots[..j]), slots[j].value, Live(slots[j + 1..]));
  }

  lemma Without(a: seq<Ref>, r: Ref, b: seq<Ref>)
    ensures multiset(a + [r] + b) == multiset(a + b) + multiset{r}
    ensures a + ([r] + b) == a + [r] + b && a + ([] + b) == a + b
  {
  }

  lemma {:induction false} LiveOccupied(refs: seq<Ref>)
    ensures Live(Occupied(refs)) == refs
  {
    if refs != [] {
      var init := refs[..|refs| - 1];
      LiveOccupied(init);
      assert Occupied(refs)[..|refs| - 1] == Occupied(init);
    }
  }

  lemma {:induction false} LiveNone(slots: seq<Option<Ref>>)
    requires forall i | 0 <= i < |slots| :: slots[i] == None
    ensures Live(slots) == []
  {
    if slots != [] {
      LiveNone(slots[..|slots| - 1]);
    }
  }

  /** The references a value on the stack holds. */
  function Held(v: Value): multiset<Ref> {
    if v.Glob? then multiset(v.g.facts) else multiset{}
  }

  function HeldBy(values: seq<Value>): multiset<Ref> {
    if values == [] then multiset{} else HeldBy(values[..|values| - 1]) + Held(values[|values| - 1])
  }

  lemma {:induction false} HeldSplit(values: seq<Value>, k: nat)
    requires k <= |values|
    ensures HeldBy(values) == HeldBy(values[..k]) + HeldBy(values[k..])
  {
    hide Held;
    if k == |values| {
      assert values[..k] == values && values[k..] == [];
    } else {
      var n := |values| - 1;
      HeldSplit(values[..n], k);
      assert values[..n][..k] == values[..k];
      assert values[k..][..n - k] == values[..n][k..];
    }
  }

  lemma HeldLess(a: seq<Value>, b: seq<Value>)
    requires a <= b
    ensures HeldBy(a) <= HeldBy(b)
  {
    hide HeldBy;
    HeldSplit(b, |a|);
    assert b[..|a|] == a;
  }

  /** Two globals on top of `rest`, and perhaps more above them. */
  lemma HeldTwo(values: seq<Value>, k: nat)
    requires k + 2 <= |values|
    ensures HeldBy(values[..k]) + Held(values[k]) + Held(values[k + 1]) <= HeldBy(values)
  {
    hide HeldBy, Held;
    HeldNext(values[..k], values[k]);
    HeldNext(values[..k + 1], values[k + 1]);
    assert values[..k + 1] == values[..k] + [values[k]];
    assert values[..k + 2] == values[..k + 1] + [values[k + 1]];
    HeldLess(values[..k + 2], values);
  }

  /** One entry exchanged for another. */
  lemma HeldUpdate(values: seq<Value>, at: nat, v: Value)
    requires at < |values|
    ensures HeldBy(values[at := v]) + Held(values[at]) == HeldBy(values) + Held(v)
  {
    hide HeldBy, Held;
    var now := values[at := v];
    HeldSplit(values, at + 1);
    HeldSplit(now, at + 1);
    assert values[..at + 1] == values[..at] + [values[at]];
    assert now[..at + 1] == values[..at] + [v];
    assert now[at + 1..] == values[at + 1..];
    HeldNext(values[..at], values[at]);
    HeldNext(values[..at], v);
  }

  lemma HeldNext(values: seq<Value>, v: Value)
    ensures HeldBy(values + [v]) == HeldBy(values) + Held(v)
  {
    assert (values + [v])[..|values|] == values;
  }

  lemma WriteNothing(w: World, r: Ref)
    ensures w.Write(r, w.FieldsOf(r), {}) == w
  {
    assert w.freed + Marks(r, {}, w.calls) == w.freed;
  }

  lemma MarksTwice(freed: map<Place, nat>, r: Ref, g: set<string>, h: set<string>, count: nat)
    ensures freed + Marks(r, g, count) + Marks(r, h, count) == freed + Marks(r, g + h, count)
  {
    var m1, m2 := freed + Marks(r, g, count) + Marks(r, h, count), freed + Marks(r, g + h, count);
    assert m1.Keys == m2.Keys;
  }

  /** Two writes to a fact, one after the other. */
  lemma WriteTwice(w: World, r: Ref, a: Fields, b: Fields, g: set<string>, h: set<string>)
    requires b != map[]
    ensures w.Write(r, a, g).Write(r, b, h) == w.Write(r, b, g + h)
    ensures w.Write(r, a, g).FieldsOf(r) == a
  {
    MarksTwice(w.freed, r, g, h, w.calls);
    hide Marks;
    var w1, w2 := w.Write(r, a, g).Write(r, b, h), w.Write(r, b, g + h);
    assert w1.heap == w2.heap;
  }

  /** A partial update under way: `d0` are the fields before, `todo` the fields of the
      source still to come, `gone` the fields whose values have been freed. */
  ghost predicate Overlaid(d0: Fields, sf: Fields, now: Fields, todo: set<string>, gone: set<string>) {
    && todo <= sf.Keys && now.Keys <= d0.Keys + sf.Keys
    && (forall f | f in d0 && (f !in sf || f in todo) :: f in now && now[f] == d0[f])
    && (forall f | f in sf && f !in todo :: f in now && now[f] == sf[f])
    && (forall f | f in todo && f in now :: f in d0)
    && forall f :: f in gone <==> f in sf && f !in todo && f in d0 && d0[f] != sf[f]
  }

  lemma OverlaidNext(d0: Fields, sf: Fields, now: Fields, todo: set<string>, gone: set<string>, f: string)
    requires Overlaid(d0, sf, now, todo, gone) && f in todo
    ensures if FieldMatches(now, f, sf[f]) then Overlaid(d0, sf, now, todo - {f}, gone)
            else !FieldMatches(d0, f, sf[f])
                 && Overlaid(d0, sf, now[f := sf[f]], todo - {f}, gone + {f} * now.Keys)
  {
  }

  lemma OverlaidAll(d0: Fields, sf: Fields, now: Fields, gone: set<string>)
    requires Overlaid(d0, sf, now, {}, gone)
    ensures now == d0 + sf && gone == Differing(d0, d0 + sf)
  {
  }

  /** vm_global_t with facts. */
  class GlobalObj {
    var slots: array<Option<Ref>>
    var nfact: nat

    /** vm_global_lookup: a table full of references. */
    constructor (refs: seq<Ref>)
      ensures fresh(slots) && slots[..] == Occupied(refs) && nfact == |refs|
      ensures Holds() == refs
    {
      var a := new Option<Ref>[|refs|](i requires 0 <= i < |refs| => Some(refs[i]));
      slots, nfact := a, |refs|;
      new;
      assert slots[..] == Occupied(refs);
      LiveOccupied(refs);
    }

    /** The references in a packed table. */
    method Refs() returns (refs: seq<Ref>)
      requires nfact <= slots.Length && forall k | 0 <= k < nfact :: slots[k].Some?
      ensures slots[..nfact] == Occupied(refs)
    {
      refs := [];
      while |refs| < nfact
        invariant |refs| <= nfact
        invariant forall k | 0 <= k < |refs| :: slots[k] == Some(refs[k])
      {
        refs := refs + [slots[|refs|].value];
      }
    }

    /** The references held. */
    ghost function Holds(): seq<Ref>
      reads this, slots
    {
      Live(slots[..])
    }

    /** The table holds at least as many references as nfact counts. */
    ghost predicate Freeable()
      reads this, slots
    {
      nfact <= |Holds()|
    }

    /** The first `n` of the references the global began with are gone, and nfact
        counts the others. */
    ghost predicate Consumed(refs: seq<Ref>, n: nat)
      reads this, slots
    {
      && n <= |refs| == slots.Length && nfact == |refs| - n
      && forall k | 0 <= k < |refs| :: slots[k] == if k < n then None else Some(refs[k])
    }
  }

  // ------------------------------------------------------------------
  // The facts
  // ------------------------------------------------------------------

  /** The facts, with a record of the references globals have taken and released,
      of the ones dropped by the store, and of the fields written. */
  class FactSpace {
    var w: World
    var taken: multiset<Ref>
    var released: multiset<Ref>
    var dropped: seq<Ref>
    var writes: seq<(Ref, string)>

    constructor (world: World)
      ensures w == world && taken == multiset{} && released == multiset{} && dropped == [] && writes == []
    {
      w, taken, released, dropped, writes := world, multiset{}, multiset{}, [], [];
    }

    /** A global that comes to the stack takes a reference to each of its facts. */
    method Take(v: Value)
      modifies this`taken
      ensures taken == old(taken) + Held(v)
    {
      taken := taken + Held(v);
    }

    /** g_object_unref of a reference a global holds. */
    method Unref(r: Ref)
      modifies this`released
      ensures released == old(released) + multiset{r}
    {
      released := released + multiset{r};
    }

    /** vm_global_free.  It has no bound but nfact: `false` stands for running past
        the end of the table, which it does exactly if nfact counts more references
        than are left. */
    method Free(g: GlobalObj) returns (ok: bool)
      modifies this`released
      ensures ok <==> g.Freeable()
      ensures ok ==> released == old(released) + multiset(g.Holds()[..g.nfact])
      ensures !ok ==> released == old(released) + multiset(g.Holds())
    {
      hide Live;
      var i, n := 0, 0;
      LiveEmpty();
      assert g.slots[..0] == [];
      while n < g.nfact
        invariant 0 <= i <= g.slots.Length
        invariant n == |Live(g.slots[..i])| && n <= g.nfact
        invariant released == old(released) + multiset(Live(g.slots[..i]))
        decreases g.slots.Length - i
      {
        if i == g.slots.Length {
          assert g.slots[..i] == g.slots[..];
          return false;
        }
        LiveNext(g.slots[..], i);
        assert g.slots[..][..i] == g.slots[..i] && g.slots[..][..i + 1] == g.slots[..i + 1];
        if g.slots[i].Some? {
          Unref(g.slots[i].value);
          n := n + 1;
        }
        i := i + 1;
      }
      LivePrefix(g.slots[..], i);
      assert g.slots[..][..i] == g.slots[..i];
      assert Live(g.slots[..])[..g.nfact] == Live(g.slots[..i]);
      return true;
    }

    /** vm_global_free of a global that counts what it holds. */
    method FreeAll(g: GlobalObj)
      requires g.nfact == |g.Holds()|
      modifies this`released
      ensures released == old(released) + multiset(g.Holds())
    {
      assert g.Holds()[..g.nfact] == g.Holds();
      var ok := Free(g);
    }

    /** vm_global_free of a value taken off the stack, if it is a global. */
    method ReleaseValue(v: Value)
      modifies this`released
      ensures released == old(released) + Held(v)
    {
      if v.Glob? {
        Release(v.g);
      }
    }

    method Release(g: Global)
      modifies this`released
      ensures released == old(released) + multiset(g.facts)
    {
      var obj := new GlobalObj(g.facts);
      FreeAll(obj);
    }

    // ----------------------------------------------------------------
    // Fields of a fact
    // ----------------------------------------------------------------

    /** ohm_fact_set: the value the field had, if any, is freed. */
    method SetField(r: Ref, field: string, v: Field)
      modifies this`w, this`writes
      ensures w == old(w).Write(r, old(w).FieldsOf(r)[field := v], {field} * old(w).FieldsOf(r).Keys)
      ensures writes == old(writes) + [(r, field)]
    {
      w := w.Write(r, w.FieldsOf(r)[field := v], {field} * w.FieldsOf(r).Keys);
      writes := writes + [(r, field)];
    }

    /** One more field of a fact that is being written. */
    method SetNext(d: Ref, field: string, v: Field, ghost w0: World, ghost gone: set<string>)
      requires w == w0.Write(d, w.FieldsOf(d), gone)
      modifies this`w, this`writes
      ensures w.FieldsOf(d) == old(w).FieldsOf(d)[field := v] && writes == old(writes) + [(d, field)]
      ensures w == w0.Write(d, w.FieldsOf(d), gone + {field} * old(w).FieldsOf(d).Keys)
    {
      hide Marks;
      ghost var now := w.FieldsOf(d);
      assert field in now[field := v];
      WriteTwice(w0, d, now, now[field := v], gone, {field} * now.Keys);
      SetField(d, field, v);
    }

    /** vm_fact_update: sets the fields that differ, and no other. */
    method FactUpdate(d: Ref, s: Ref)
      modifies this`w, this`writes
      ensures w == old(w).With(d, Assign(old(w).FieldsOf(d), old(w).FieldsOf(s), true))
      ensures old(writes) <= writes
      ensures forall i | |old(writes)| <= i < |writes| ::
                var (r, f) := writes[i];
                r == d && f in old(w).FieldsOf(s) && !FieldMatches(old(w).FieldsOf(d), f, old(w).FieldsOf(s)[f])
    {
      hide Marks, FieldMatches;
      ghost var w0, d0 := w, w.FieldsOf(d);
      var sf := w.FieldsOf(s);
      var todo := sf.Keys;
      ghost var gone: set<string> := {};
      WriteNothing(w, d);
      assert Overlaid(d0, sf, d0, todo, gone);
      hide Overlaid, w.Write;
      while todo != {}
        invariant todo <= sf.Keys && old(writes) <= writes
        invariant w == w0.Write(d, w.FieldsOf(d), gone) && Overlaid(d0, sf, w.FieldsOf(d), todo, gone)
        invariant forall i | |old(writes)| <= i < |writes| ::
                    var (r, f) := writes[i]; r == d && f in sf && !FieldMatches(d0, f, sf[f])
        decreases todo
      {
        var f :| f in todo;
        ghost var now := w.FieldsOf(d);
        OverlaidNext(d0, sf, now, todo, gone, f);
        todo := todo - {f};
        if FieldMatches(w.FieldsOf(d), f, sf[f]) {
          continue;
        }
        SetNext(d, f, sf[f], w0, gone);
        gone := gone + {f} * now.Keys;
      }
      OverlaidAll(d0, sf, w.FieldsOf(d), gone);
    }

    /** vm_fact_copy: clears the destination, unless it is the source, and copies
        every field. */
    method FactCopy(d: Ref, s: Ref)
      modifies this`w, this`writes
      ensures w == old(w).Reset(d, old(w).FieldsOf(s))
      ensures old(writes) <= writes
    {
      hide Marks;
      ghost var w0, d0 := w, w.FieldsOf(d);
      var sf := w.FieldsOf(s);
      ghost var gone: set<string> := {};
      WriteNothing(w, d);
      if d != s {
        w := w.Write(d, map[], w.FieldsOf(d).Keys);
        gone := d0.Keys;
      }
      var todo := sf.Keys;
      while todo != {}
        invariant todo <= sf.Keys
        invariant w == w0.Write(d, w.FieldsOf(d), gone) && old(writes) <= writes
        invariant w.FieldsOf(d).Keys <= sf.Keys
        invariant d != s ==> w.FieldsOf(d).Keys !! todo && gone == d0.Keys
        invariant d == s ==> w.FieldsOf(d) == sf && gone == sf.Keys - todo
        invariant forall f | f in sf && f !in todo :: f in w.FieldsOf(d) && w.FieldsOf(d)[f] == sf[f]
        decreases todo
      {
        var f :| f in todo;
        todo := todo - {f};
        ghost var now := w.FieldsOf(d);
        SetNext(d, f, sf[f], w0, gone);
        gone := gone + {f} * now.Keys;
      }
      assert w.FieldsOf(d) == sf && gone == d0.Keys;
    }

    /** ohm_fact_store_insert under a name. */
    method StoreInsert(r: Ref, name: string)
      modifies this`w
      ensures w == old(w).Insert(r, name)
    {
      w := w.Insert(r, name);
    }

    /** vm_fact_dup, followed by its insertion into the store. */
    method InsertDup(r: Ref, name: string)
      modifies this`w
      ensures var dup := old(w).next;
              w == old(w).(heap := old(w).heap[dup := Fact(name, old(w).FieldsOf(r))],
                           store := old(w).store + [dup], next := dup + 1)
    {
      var dup := w.next;
      w := w.(heap := w.heap[dup := Fact(name, w.FieldsOf(r))], next := dup + 1);
      w := w.(store := w.store + [dup]);
    }

    // ----------------------------------------------------------------
    // FILTER
    // ----------------------------------------------------------------

    /** One selector: drops the facts it does not keep and counts them. */
    method ApplyTest(g: GlobalObj, t: Test) returns (ok: bool, drops: nat)
      requires g.nfact == g.slots.Length
      modifies this`released, g.slots
      ensures ok <==> FilterOne(w, old(g.Holds()), t).Some?
      ensures ok ==> FilterOne(w, old(g.Holds()), t) == Some(g.Holds())
      ensures ok ==> drops == |old(g.Holds())| - |g.Holds()|
      ensures !ok ==> (Drops(w, old(g.Holds()), t) <==> |g.Holds()| < |old(g.Holds())|)
      ensures |g.Holds()| <= |old(g.Holds())|
      ensures released + multiset(g.Holds()) == old(released) + multiset(old(g.Holds())) && old(released) <= released
    {
      hide FilterOne, Keeps, Live, Drops;
      ghost var before := g.slots[..];
      ok, drops := true, 0;
      var j := 0;
      LiveEmpty();
      FilterOneEmpty(w, t);
      assert before[..0] == [] && g.slots[..0] == [];
      while j < g.nfact
        invariant 0 <= j <= g.slots.Length == |before|
        invariant g.slots[j..] == before[j..]
        invariant FilterOne(w, Live(before[..j]), t) == Some(Live(g.slots[..j]))
        invariant 0 <= drops == |Live(before[..j])| - |Live(g.slots[..j])|
        invariant released + multiset(Live(g.slots[..j])) == old(released) + multiset(Live(before[..j]))
        invariant old(released) <= released
      {
        ghost var pre, rel := g.slots[..], released;
        assert pre[j..] == before[j..] && pre[j] == before[j] && pre[..j] == g.slots[..j];
        LiveNext(before, j);
        if g.slots[j].Some? {
          var r := g.slots[j].value;
          FilterOneNext(w, Live(before[..j]), r, t);
          match Keeps(w.FieldsOf(r), t) {
            case None =>
              TestClashes(w, t, before, pre, j, rel, old(released));
              return false, drops;
            case Some(b) =>
              if !b {
                Unref(r);
                g.slots[j] := None;
                drops := drops + 1;
              }
          }
        }
        LiveNext(g.slots[..], j);
        assert g.slots[..][..j] == pre[..j] && g.slots[..][..j + 1] == g.slots[..j + 1];
        Balance(rel, released, old(released), Live(pre[..j]), Live(g.slots[..j + 1]), Live(before[..j]),
                Live(before[..j + 1]), before[j], g.slots[j]);
        j := j + 1;
      }
      assert before[..j] == before && g.slots[..j] == g.slots[..];
    }

    /** Packs the references left to the front and counts them. */
    method Pack(g: GlobalObj, nfact: nat)
      requires nfact == |g.Holds()|
      requires g.nfact == |g.slots[..]|
      modifies g`nfact, g.slots
      ensures g.nfact == nfact
      ensures g.slots[..nfact] == Occupied(old(g.Holds()))
    {
      hide Live, Occupied;
      ghost var before := g.slots[..];
      if nfact != g.nfact {
        var i, j := 0, 0;
        LiveEmpty();
        assert before[..0] == [] == g.slots[..0];
        NoneOccupied();
        while j < nfact
          invariant 0 <= j <= i <= g.slots.Length
          invariant j == |Live(before[..i])| <= nfact
          invariant forall k | i <= k < g.slots.Length :: g.slots[k] == before[k]
          invariant g.slots[..j] == Occupied(Live(before[..i]))
          decreases g.slots.Length - i
        {
          LivePrefix(before, i);
          assert before[..g.slots.Length] == before;
          LiveNext(before, i);
          LivePrefix(before, i + 1);
          OccupiedNext(Live(before[..i]), before[i]);
          if g.slots[i].Some? {
            g.slots[j] := g.slots[i];
            assert g.slots[..j + 1] == g.slots[..j] + [before[i]];
            j := j + 1;
          }
          i := i + 1;
        }
        LivePrefix(before, i);
        assert Live(before) == Live(before[..i]);
      } else {
        AllLive(before);
      }
      g.nfact := nfact;
    }

    // ----------------------------------------------------------------
    // Matching
    // ----------------------------------------------------------------

    /** vm_fact_collect_fields: 0, or minus the index of the first field missing,
        which for the first one is 0 as well. */
    method CollectFields(s: Ref, fields: seq<string>) returns (k: int)
      ensures FirstMissing(w.FieldsOf(s), fields) < |fields| ==> k == 0 - FirstMissing(w.FieldsOf(s), fields) as int
      ensures FirstMissing(w.FieldsOf(s), fields) == |fields| ==> k == 0
    {
      var i := 0;
      while i < |fields|
        invariant i <= |fields|
        invariant forall j | 0 <= j < i :: fields[j] in w.FieldsOf(s)
      {
        if fields[i] !in w.FieldsOf(s) {
          return -i;
        }
        i := i + 1;
      }
      return 0;
    }

    /** vm_fact_matches. */
    method FactMatches(d: Ref, fields: seq<string>, sf: Fields) returns (b: bool)
      ensures b == Matches(w.FieldsOf(d), fields, sf)
    {
      var i := 0;
      while i < |fields|
        invariant 0 <= i <= |fields|
        invariant forall k | 0 <= k < i :: fields[k] in sf && FieldMatches(w.FieldsOf(d), fields[k], sf[fields[k]])
      {
        if fields[i] !in sf || !FieldMatches(w.FieldsOf(d), fields[i], sf[fields[i]]) {
          return false;
        }
        i := i + 1;
      }
      return true;
    }

    /** vm_global_find_first (from 0) and vm_global_find_next (from the slot after
        the last match): the next match below nfact, or -1. */
    method FindFrom(g: GlobalObj, from: nat, fields: seq<string>, sf: Fields) returns (j: int)
      requires g.nfact <= g.slots.Length
      ensures j == -1 || from <= j < g.nfact
      ensures j >= 0 ==> g.slots[j].Some? && Matches(w.FieldsOf(g.slots[j].value), fields, sf)
      ensures forall k | from <= k < g.nfact && (j >= 0 ==> k < j) && g.slots[k].Some? ::
                !Matches(w.FieldsOf(g.slots[k].value), fields, sf)
    {
      hide Matches;
      j := from;
      while j < g.nfact
        invariant from <= j
        invariant forall k | from <= k < j && k < g.nfact && g.slots[k].Some? ::
                    !Matches(w.FieldsOf(g.slots[k].value), fields, sf)
      {
        if g.slots[j].Some? {
          var b := FactMatches(g.slots[j].value, fields, sf);
          if b {
            return j;
          }
        }
        j := j + 1;
      }
      return -1;
    }

    // ----------------------------------------------------------------
    // UPDATE
    // ----------------------------------------------------------------

    /** One source: updates every destination that matches it. */
    method UpdateMatching(s: Ref, dst: GlobalObj, ghost refs: seq<Ref>, fields: seq<string>, partial: bool)
      returns (found: bool)
      requires dst.slots[..] == Occupied(refs) && dst.nfact == |refs|
      modifies this`w, this`writes
      ensures w == UpdateDsts(old(w), old(w).FieldsOf(s), refs, fields, partial)
      ensures found <==> SomeMatch(old(w), refs, fields, old(w).FieldsOf(s))
    {
      hide Matches, UpdateDsts, Marks, Differing;
      ghost var w0 := w;
      var sf := w.FieldsOf(s);
      found := false;
      UpdateNoDst(w0, sf, refs, fields, partial);
      var j := FindFrom(dst, 0, fields, sf);
      ghost var e := if j < 0 then |refs| else j;
      assert forall k | 0 <= k < |refs| :: dst.slots[k] == dst.slots[..][k] == Some(refs[k]);
      UpdateSkips(w0, sf, refs, fields, partial, 0, e);
      while j >= 0
        invariant j == (if e == |refs| then -1 else e) && 0 <= e <= |refs|
        invariant w == UpdateDsts(w0, sf, refs[..e], fields, partial)
        invariant j >= 0 ==> Matches(w.FieldsOf(refs[e]), fields, sf)
        invariant !found ==> w == w0 && forall k | 0 <= k < e :: !Matches(w0.FieldsOf(refs[k]), fields, sf)
        invariant found ==> SomeMatch(w0, refs, fields, sf)
        invariant w.FieldsOf(s) == sf
        decreases |refs| - e
      {
        found := true;
        var d := dst.slots[j].value;
        assert d == refs[j];
        ghost var w1 := w;
        if partial {
          FactUpdate(d, s);
        } else {
          FactCopy(d, s);
        }
        AssignedSame(w1, s, d, partial);
        UpdateNextDst(w0, sf, refs, fields, partial, e);
        ghost var from := e + 1;
        j := FindFrom(dst, j + 1, fields, sf);
        e := if j < 0 then |refs| else j;
        UpdateSkips(w0, sf, refs, fields, partial, from, e);
      }
      assert refs[..|refs|] == refs;
    }

    /** The treatment of one source. */
    method UpdateNext(s: Ref, dst: GlobalObj, ghost refs: seq<Ref>, fields: seq<string>, partial: bool)
      returns (err: int)
      requires dst.slots[..] == Occupied(refs) && dst.nfact == |refs|
      requires !UpdateSrc(w, s, refs, fields, partial).Undefined?
      modifies this`w, this`writes
      ensures UpdateSrc(old(w), s, refs, fields, partial) == if err == 0 then Done((), w) else Error(err, w)
    {
      hide SomeMatch, UpdateDsts;
      ghost var w1 := w;
      var k := CollectFields(s, fields);
      if k < 0 {
        return ENOENT;
      }
      UpdateSrcIs(w, s, refs, fields, partial, FirstMissing(w.FieldsOf(s), fields));
      hide UpdateSrc;
      var found := UpdateMatching(s, dst, refs, fields, partial);
      if !found {
        UnmatchedSame(w1, w1.FieldsOf(s), refs, fields, partial);
        return ENOENT;
      }
      return 0;
    }

    /** Releases the reference in slot `n`, the ones before it being gone. */
    method ReleaseSlot(g: GlobalObj, ghost refs: seq<Ref>, n: nat)
      requires n < |refs| && g.Consumed(refs, n)
      modifies this`released, g`nfact, g.slots
      ensures g.Consumed(refs, n + 1)
      ensures released == old(released) + multiset{refs[n]}
    {
      Unref(g.slots[n].value);
      g.slots[n] := None;
      g.nfact := g.nfact - 1;
    }

    /** The loop over the sources: consumes the ones that find a destination. */
    method ConsumeSources(src: GlobalObj, ghost ss: seq<Ref>, dst: GlobalObj, ghost ds: seq<Ref>,
                          fields: seq<string>, partial: bool)
      returns (err: int, ghost i: nat)
      requires src != dst && src.slots != dst.slots
      requires src.slots[..] == Occupied(ss) && src.nfact == |ss|
      requires dst.slots[..] == Occupied(ds) && dst.nfact == |ds|
      requires !UpdateAll(w, ss, ds, fields, partial).Undefined?
      modifies this`w, this`writes, this`released, src`nfact, src.slots
      ensures UpdateAll(old(w), ss, ds, fields, partial) == if err == 0 then Done((), w) else Error(err, w)
      ensures src.Consumed(ss, i)
      ensures released == old(released) + multiset(ss[..i])
    {
      hide UpdateSrc, UpdateAll;
      ghost var w0 := w;
      var nsrc := src.nfact;
      var n := 0;
      err := 0;
      UpdateNone(w0, ds, fields, partial);
      assert ss[..0] == [];
      while n < nsrc
        invariant 0 <= n <= nsrc == |ss|
        invariant UpdateAll(w0, ss[..n], ds, fields, partial) == Done((), w)
        invariant src.Consumed(ss, n)
        invariant released == old(released) + multiset(ss[..n])
      {
        var s := src.slots[n].value;
        UpdateOneMore(w0, ss, ds, fields, partial, n, w);
        err := UpdateNext(s, dst, ds, fields, partial);
        if err != 0 {
          break;
        }
        ReleaseSlot(src, ss, n);
        MoreReleased(ss, n);
        n := n + 1;
      }
      assert err == 0 ==> ss[..n] == ss;
      i := n;
    }

    /** vm_instr_update once its operands are off the stack: 0 or the error to
        raise.  Whatever happens, both globals release every reference once. */
    method Update(src: GlobalObj, dst: GlobalObj, fields: seq<string>, partial: bool) returns (err: int)
      requires src != dst && src.slots != dst.slots
      requires src.slots[..] == Occupied(src.Holds()) && src.nfact == |src.Holds()|
      requires dst.slots[..] == Occupied(dst.Holds()) && dst.nfact == |dst.Holds()|
      requires !UpdateAll(w, src.Holds(), dst.Holds(), fields, partial).Undefined?
      modifies this`w, this`writes, this`released, src`nfact, src.slots, dst`nfact, dst.slots
      ensures UpdateAll(old(w), old(src.Holds()), old(dst.Holds()), fields, partial)
           == if err == 0 then Done((), w) else Error(err, w)
      ensures released == old(released) + multiset(old(src.Holds())) + multiset(old(dst.Holds()))
    {
      hide UpdateAll, Live;
      ghost var ss, ds := src.Holds(), dst.Holds();
      ghost var i, j := 0, 0;
      err, i := ConsumeSources(src, ss, dst, ds, fields, partial);
      if err == 0 {
        j := ReleaseLoop(dst, ds);
      }
      ghost var r1 := released;
      FreeRest(src, ss, i);
      ghost var r2 := released;
      FreeRest(dst, ds, j);
      assert ds[..0] == [];
      Settle(old(released), r1, r2, released, multiset(ss[..i]), multiset(ss), multiset(ds[..j]), multiset(ds));
    }

    /** vm_global_free of a global whose first `i` references are gone. */
    method FreeRest(g: GlobalObj, ghost refs: seq<Ref>, ghost i: nat)
      requires g.Consumed(refs, i)
      modifies this`released
      ensures released + multiset(refs[..i]) == old(released) + multiset(refs)
    {
      RestHeld(g.slots[..], refs, i);
      assert refs == refs[..i] + refs[i..];
      Both(refs[..i], refs[i..]);
      assert Live(g.slots[..])[..g.nfact] == refs[i..];
      var ok := Free(g);
    }

    /** The release loop of UPDATE.  Its bound falls while its index rises, so it
        only gets through half of the destinations; vm_global_free does the rest. */
    method ReleaseLoop(g: GlobalObj, ghost refs: seq<Ref>) returns (ghost j: nat)
      requires g.slots[..] == Occupied(refs) && g.nfact == |refs|
      modifies this`released, g`nfact, g.slots
      ensures g.Consumed(refs, j)
      ensures released == old(released) + multiset(refs[..j])
      ensures |refs| - 1 <= 2 * j - 1 <= |refs|
    {
      var i := 0;
      while i < g.nfact
        invariant 0 <= i <= |refs| && g.Consumed(refs, i) && i <= g.nfact + 1
        invariant released == old(released) + multiset(refs[..i])
      {
        ReleaseSlot(g, refs, i);
        MoreReleased(refs, i);
        i := i + 1;
      }
      j := i;
    }

    // ----------------------------------------------------------------
    // REPLACE
    // ----------------------------------------------------------------

    /** The destinations as the specification sees them. */
    ghost function View(g: GlobalObj, hit: bool): Dests
      reads this`w, g, g.slots
    {
      Dests(w, g.slots[..], g.nfact, hit)
    }

    ghost predicate Mergeable(g: GlobalObj)
      reads g, g.slots
    {
      g.nfact == |g.Holds()|
    }

    /** Lets go of the reference in slot `j` and leaves a hole. */
    method DropSlot(g: GlobalObj, j: nat)
      requires j < g.slots.Length && g.slots[j].Some? && g.nfact == |g.Holds()|
      modifies this`released, g`nfact, g.slots
      ensures g.slots[..] == old(g.slots[..])[j := None]
      ensures g.nfact == |g.Holds()| == old(g.nfact) - 1
      ensures released + multiset(g.Holds()) == old(released) + multiset(old(g.Holds()))
    {
      hide Live;
      ghost var slots := g.slots[..];
      LiveUpdate(slots, j);
      var r := g.slots[j].value;
      Unref(r);
      g.slots[j] := None;
      assert g.slots[..] == slots[j := None];
      g.nfact := g.nfact - 1;
      Shift(old(released), multiset(g.Holds()), old(released), multiset(g.Holds()), multiset{r});
    }

    /** Merges a source into the destination in slot `j` and lets go of that. */
    method MergeInto(s: Ref, dst: GlobalObj, j: nat)
      requires j < dst.slots.Length && dst.slots[j].Some? && Mergeable(dst)
      modifies this`w, this`writes, this`released, dst`nfact, dst.slots
      ensures var r := old(dst.slots[j].value); w == old(w).With(r, old(w).FieldsOf(r) + old(w).FieldsOf(s))
      ensures dst.slots[..] == old(dst.slots[..])[j := None] && dst.nfact == old(dst.nfact) - 1
      ensures Mergeable(dst)
      ensures released + multiset(dst.Holds()) == old(released) + multiset(old(dst.Holds()))
    {
      hide Live;
      LiveUpdate(dst.slots[..], j);
      FactUpdate(dst.slots[j].value, s);
      DropSlot(dst, j);
    }

    /** One source against the destinations left. */
    method MergeMatching(s: Ref, dst: GlobalObj, fields: seq<string>) returns (found: bool)
      requires Mergeable(dst)
      modifies this`w, this`writes, this`released, dst`nfact, dst.slots
      ensures View(dst, found) == Scan(old(View(dst, false)), old(w).FieldsOf(s), fields, 0)
      ensures Mergeable(dst)
      ensures released + multiset(dst.Holds()) == old(released) + multiset(old(dst.Holds()))
    {
      hide Scan, Matches, Live;
      ghost var ds0 := View(dst, false);
      var sf := w.FieldsOf(s);
      found := false;
      var j := FindFrom(dst, 0, fields, sf);
      ScanSkips(ds0, sf, fields, 0, j);
      while j >= 0
        invariant j == -1 || 0 <= j < dst.nfact <= dst.slots.Length
        invariant j == -1 ==> View(dst, found) == Scan(ds0, sf, fields, 0)
        invariant j >= 0 ==> && Scan(View(dst, found), sf, fields, j) == Scan(ds0, sf, fields, 0)
                             && dst.slots[j].Some? && Matches(w.FieldsOf(dst.slots[j].value), fields, sf)
        invariant Mergeable(dst) && w.FieldsOf(s) == sf
        invariant released + multiset(dst.Holds()) == old(released) + multiset(old(dst.Holds()))
        decreases if j < 0 then 0 else dst.slots.Length - j
      {
        ScanHits(View(dst, found), sf, fields, j);
        AssignedSame(w, s, dst.slots[j].value, true);
        found := true;
        MergeInto(s, dst, j);
        ghost var from := j + 1;
        j := FindFrom(dst, j + 1, fields, sf);
        ScanSkips(View(dst, true), sf, fields, from, j);
      }
    }

    /** The treatment of one source: `found` tells whether it was merged. */
    method MergeNext(s: Ref, dst: GlobalObj, fields: seq<string>, ghost hit: bool, ghost left: seq<Ref>)
      returns (err: int, found: bool, ghost hit1: bool)
      requires Mergeable(dst)
      requires !MergeSrc(View(dst, hit), left, s, fields).MergeUndefined?
      modifies this`w, this`writes, this`released, dst`nfact, dst.slots
      ensures MergeSrc(old(View(dst, hit)), left, s, fields)
           == if err == 0 then Merged(View(dst, hit1), if found then left else left + [s]) else MergeError(err, w)
      ensures Mergeable(dst)
      ensures released + multiset(dst.Holds()) == old(released) + multiset(old(dst.Holds()))
    {
      hide Scan, Live;
      hit1 := hit;
      ghost var ds0 := View(dst, hit);
      var k := CollectFields(s, fields);
      if k < 0 {
        return ENOENT, false, hit;
      }
      found := MergeMatching(s, dst, fields);
      if FirstMissing(ds0.w.FieldsOf(s), fields) == |fields| {
        hit1 := found;
      } else {
        ScanMisses(ds0, ds0.w.FieldsOf(s), fields);
        assert View(dst, hit) == ds0;
      }
      err := 0;
    }

    /** The sources before `i` have been treated; the ones merged have left a hole. */
    ghost predicate Treated(ds0: Dests, ss: seq<Ref>, i: nat, src: GlobalObj, dst: GlobalObj, hit: bool,
                            fields: seq<string>)
      reads this, src, src.slots, dst, dst.slots
    {
      && i <= |ss| == src.slots.Length && src.nfact == |src.Holds()| && Mergeable(dst)
      && MergeAll(ds0, ss[..i], fields) == Merged(View(dst, hit), Live(src.slots[..i]))
      && forall k | i <= k < |ss| :: src.slots[k] == Some(ss[k])
    }

    /** One turn of the loop over the sources. */
    method MergeSource(ghost ds0: Dests, ghost ss: seq<Ref>, i: nat, src: GlobalObj, dst: GlobalObj, ghost hit: bool,
                       fields: seq<string>)
      returns (err: int, ghost hit1: bool)
      requires src != dst && src.slots != dst.slots && i < |ss|
      requires Treated(ds0, ss, i, src, dst, hit, fields) && !MergeAll(ds0, ss, fields).MergeUndefined?
      modifies this`w, this`writes, this`released, src`nfact, src.slots, dst`nfact, dst.slots
      ensures if err == 0 then Treated(ds0, ss, i + 1, src, dst, hit1, fields)
              else MergeAll(ds0, ss, fields) == MergeError(err, w) && Mergeable(dst) && src.nfact == |src.Holds()|
      ensures released + multiset(dst.Holds()) + multiset(src.Holds())
           == old(released) + multiset(old(dst.Holds())) + multiset(old(src.Holds()))
    {
      hide MergeSrc, MergeAll, Live;
      ghost var slots, left, rel, had := src.slots[..], Live(src.slots[..i]), released, multiset(dst.Holds());
      var s := src.slots[i].value;
      MergeOneMore(ds0, ss, fields, i, View(dst, hit), left);
      var found;
      err, found, hit1 := MergeNext(s, dst, fields, hit, left);
      Trade(rel, had, released, multiset(dst.Holds()), multiset(src.Holds()));
      if err != 0 {
        return;
      }
      if found {
        ghost var rel1, had1 := released, multiset(src.Holds());
        DropSlot(src, i);
        Trade(rel1, had1, released, multiset(src.Holds()), multiset(dst.Holds()));
      }
      LiveNext(src.slots[..], i);
      assert src.slots[..][..i] == slots[..i];
      assert src.slots[..][..i + 1] == src.slots[..i + 1];
    }

    /** The loop over the sources. */
    method MergeSources(src: GlobalObj, ghost ss: seq<Ref>, dst: GlobalObj, ghost ds: seq<Ref>, fields: seq<string>)
      returns (err: int, ghost hit: bool)
      requires src != dst && src.slots != dst.slots
      requires src.slots[..] == Occupied(ss) && src.nfact == |ss| && Live(src.slots[..]) == ss
      requires dst.slots[..] == Occupied(ds) && Mergeable(dst)
      requires !MergeAll(View(dst, false), ss, fields).MergeUndefined?
      modifies this`w, this`writes, this`released, src`nfact, src.slots, dst`nfact, dst.slots
      ensures MergeAll(old(View(dst, false)), ss, fields)
           == if err == 0 then Merged(View(dst, hit), src.Holds()) else MergeError(err, w)
      ensures Mergeable(dst) && src.nfact == |src.Holds()|
      ensures released + multiset(dst.Holds()) + multiset(src.Holds())
           == old(released) + multiset(old(dst.Holds())) + multiset(ss)
    {
      hide MergeAll, Live;
      ghost var ds0 := View(dst, false);
      var nsrc := src.nfact;
      var i := 0;
      err, hit := 0, false;
      MergeNone(ds0, fields);
      LiveEmpty();
      assert ss[..0] == [] && src.slots[..0] == [];
      assert forall k | 0 <= k < |ss| :: src.slots[..][k] == Some(ss[k]);
      while i < nsrc
        invariant 0 <= i <= nsrc == |ss| && Treated(ds0, ss, i, src, dst, hit, fields)
        invariant released + multiset(dst.Holds()) + multiset(src.Holds())
               == old(released) + multiset(old(dst.Holds())) + multiset(ss)
      {
        err, hit := MergeSource(ds0, ss, i, src, dst, hit, fields);
        if err != 0 {
          return;
        }
        i := i + 1;
      }
      assert ss[..i] == ss && src.slots[..i] == src.slots[..];
    }

    /** Removes every destination left from the fact store.  Each one loses the
        reference of the store (`dropped`) and the one of the global. */
    method RemoveLeftovers(dst: GlobalObj)
      requires dst.nfact == |dst.Holds()|
      modifies this`w, this`released, this`dropped, dst`nfact, dst.slots
      ensures w == old(w).(store := RemoveFrom(old(w).store, old(dst.slots[..])))
      ensures dropped == old(dropped) + old(dst.Holds())
      ensures dst.nfact == 0 && dst.Holds() == []
      ensures released == old(released) + multiset(old(dst.Holds()))
    {
      hide Live, RemoveFrom;
      ghost var slots, w0 := dst.slots[..], w;
      var i, cnt := 0, dst.nfact;
      LiveEmpty();
      RemoveNothing(w.store);
      assert slots[..0] == [];
      while cnt > 0
        invariant 0 <= i <= |slots| == dst.slots.Length
        invariant dst.nfact == cnt == |dst.Holds()|
        invariant forall k | 0 <= k < |slots| :: dst.slots[k] == if k < i then None else slots[k]
        invariant w == w0.(store := RemoveFrom(w0.store, slots[..i]))
        invariant dropped == old(dropped) + Live(slots[..i])
        invariant released + multiset(dst.Holds()) == old(released) + multiset(Live(slots))
        decreases |slots| - i
      {
        if i == |slots| {
          LiveNone(dst.slots[..]);
        }
        LiveNext(slots, i);
        RemoveNext(w0.store, slots, i);
        if dst.slots[i].Some? {
          var r := dst.slots[i].value;
          w := w.(store := RemoveFrom(w.store, [Some(r)]));
          dropped := dropped + [r];
          ghost var rel, had := released, multiset(dst.Holds());
          DropSlot(dst, i);
          cnt := cnt - 1;
        }
        i := i + 1;
      }
      assert dst.Holds() == [];
      RestNone(dst.slots[..], slots, i);
      RemoveSame(w0.store, slots[..i], slots);
    }

    /** Inserts every source left under `name`; the store takes the references over. */
    method InsertLeftovers(src: GlobalObj, name: string)
      requires src.nfact == |src.Holds()|
      modifies this`w, src`nfact, src.slots
      ensures w == InsertAll(old(w), old(src.Holds()), name)
      ensures src.nfact == 0 && src.Holds() == []
    {
      hide Live, InsertAll;
      ghost var slots, w0 := src.slots[..], w;
      var i, cnt := 0, src.nfact;
      LiveEmpty();
      InsertNothing(w, name);
      assert slots[..0] == [];
      while cnt > 0
        invariant 0 <= i <= |slots| == src.slots.Length
        invariant src.nfact == cnt == |src.Holds()|
        invariant forall k | 0 <= k < |slots| :: src.slots[k] == if k < i then None else slots[k]
        invariant w == InsertAll(w0, Live(slots[..i]), name)
        decreases |slots| - i
      {
        if i == |slots| {
          LiveNone(src.slots[..]);
        }
        LiveNext(slots, i);
        if src.slots[i].Some? {
          var r := src.slots[i].value;
          InsertNext(w0, Live(slots[..i]), r, name);
          LiveUpdate(src.slots[..], i);
          w := w.Insert(r, name);
          ghost var pre := src.slots[..];
          src.slots[i] := None;
          assert src.slots[..] == pre[i := None];
          src.nfact := src.nfact - 1;
          cnt := cnt - 1;
        }
        i := i + 1;
      }
      RestNone(src.slots[..], slots, i);
    }

    /** vm_instr_replace once its operands are off the stack.  Every reference the
        globals hold is released once, or handed over to the store (`left`). */
    method Replace(src: GlobalObj, dst: GlobalObj, fields: seq<string>, name: string)
      returns (err: int, ghost left: seq<Ref>)
      requires src != dst && src.slots != dst.slots
      requires src.slots[..] == Occupied(src.Holds()) && src.nfact == |src.Holds()|
      requires dst.slots[..] == Occupied(dst.Holds()) && dst.nfact == |dst.Holds()|
      requires !ReplaceAll(w, src.Holds(), dst.Holds(), fields, name).Undefined?
      modifies this`w, this`writes, this`released, this`dropped, src`nfact, src.slots, dst`nfact, dst.slots
      ensures ReplaceAll(old(w), old(src.Holds()), old(dst.Holds()), fields, name)
           == if err == 0 then Done((), w) else Error(err, w)
      ensures released + multiset(left) == old(released) + multiset(old(src.Holds())) + multiset(old(dst.Holds()))
      ensures err != 0 ==> left == []
    {
      hide MergeAll, Live, InsertAll, RemoveFrom;
      ghost var ss, ds := src.Holds(), dst.Holds();
      ghost var ds0 := View(dst, false);
      ghost var hit := false;
      err, left := 0, ss;
      if fields != [] {
        err, hit := MergeSources(src, ss, dst, ds, fields);
        left := src.Holds();
      }
      ghost var r1, h1, h2 := released, src.Holds(), dst.Holds();
      assert r1 + multiset(h2) + multiset(h1) == old(released) + multiset(ds) + multiset(ss);
      if err != 0 {
        left := [];
      } else {
        RemoveLeftovers(dst);
        InsertLeftovers(src, name);
      }
      FreeAll(src);
      FreeAll(dst);
      Account(old(released), r1, released, multiset(ss), multiset(ds), multiset(h1), multiset(h2), multiset(left));
    }
  }

  lemma Account(r0: multiset<Ref>, r1: multiset<Ref>, r2: multiset<Ref>, s: multiset<Ref>, d: multiset<Ref>,
                h1: multiset<Ref>, h2: multiset<Ref>, left: multiset<Ref>)
    requires r1 + h2 + h1 == r0 + d + s
    requires (left == h1 && r2 == r1 + h2) || (left == multiset{} && r2 == r1 + h1 + h2)
    ensures r2 + left == r0 + s + d
  {
    forall x ensures (r2 + left)[x] == (r0 + s + d)[x] {
      assert (r1 + h2 + h1)[x] == (r0 + d + s)[x];
    }
  }

  lemma RemoveNothing(store: seq<Ref>)
    ensures RemoveFrom(store, []) == store
  {
  }

  /** Removing one more fact. */
  lemma {:induction false} RemoveNext(store: seq<Ref>, slots: seq<Option<Ref>>, i: nat)
    requires i < |slots|
    ensures RemoveFrom(store, slots[..i + 1])
         == if slots[i].Some? then RemoveFrom(RemoveFrom(store, slots[..i]), [slots[i]])
            else RemoveFrom(store, slots[..i])
  {
    if store != [] {
      var init, last := store[..|store| - 1], store[|store| - 1];
      RemoveNext(init, slots, i);
      assert InSlots(last, slots[..i + 1]) <==> InSlots(last, slots[..i]) || slots[i] == Some(last);
      var kept := RemoveFrom(init, slots[..i]);
      assert (kept + [last])[..|kept|] == kept;
    }
  }

  lemma {:induction false} RemoveSame(store: seq<Ref>, a: seq<Option<Ref>>, b: seq<Option<Ref>>)
    requires forall r :: InSlots(r, a) <==> InSlots(r, b)
    ensures RemoveFrom(store, a) == RemoveFrom(store, b)
  {
    if store != [] {
      RemoveSame(store[..|store| - 1], a, b);
    }
  }

  /** When nothing is held any more, nothing was left beyond index `i`. */
  lemma RestNone(now: seq<Option<Ref>>, slots: seq<Option<Ref>>, i: nat)
    requires |now| == |slots| && i <= |slots| && Live(now) == []
    requires forall k | 0 <= k < |slots| :: now[k] == if k < i then None else slots[k]
    ensures Live(slots[..i]) == Live(slots)
    ensures forall r :: InSlots(r, slots[..i]) <==> InSlots(r, slots)
  {
    LivePrefix(slots, i);
    forall k | i <= k < |slots| ensures slots[k] == None {
      if now[k].Some? {
        LiveUpdate(now, k);
      }
    }
    LiveNone(slots[i..]);
  }

  lemma InsertNothing(w: World, name: string)
    ensures InsertAll(w, [], name) == w
  {
  }

  lemma InsertNext(w: World, refs: seq<Ref>, r: Ref, name: string)
    ensures InsertAll(w, refs + [r], name) == InsertAll(w, refs, name).Insert(r, name)
  {
    assert (refs + [r])[..|refs|] == refs;
  }

  lemma ScanMisses(ds: Dests, sf: Fields, fields: seq<string>)
    requires fields != [] && fields[0] !in sf && ds.nfact <= |ds.slots|
    ensures Scan(ds, sf, fields, 0) == ds
    ensures Scan(ds.(hit := false), sf, fields, 0) == ds.(hit := false)
  {
    ScanSkips(ds, sf, fields, 0, -1);
    ScanSkips(ds.(hit := false), sf, fields, 0, -1);
  }

  lemma MergeNone(ds: Dests, fields: seq<string>)
    ensures MergeAll(ds, [], fields) == Merged(ds, [])
  {
  }

  lemma MergeOneMore(ds: Dests, src: seq<Ref>, fields: seq<string>, i: nat, ds1: Dests, left: seq<Ref>)
    requires i < |src|
    requires MergeAll(ds, src[..i], fields) == Merged(ds1, left)
    ensures MergeAll(ds, src[..i + 1], fields) == MergeSrc(ds1, left, src[i], fields)
    ensures !MergeSrc(ds1, left, src[i], fields).Merged? ==>
              MergeAll(ds, src, fields) == MergeSrc(ds1, left, src[i], fields)
  {
    assert src[..i + 1][..i] == src[..i];
    if !MergeSrc(ds1, left, src[i], fields).Merged? {
      MergeStops(ds, src, fields, i + 1);
    }
  }

  lemma {:induction false} MergeStops(ds: Dests, src: seq<Ref>, fields: seq<string>, i: nat)
    requires i <= |src|
    requires !MergeAll(ds, src[..i], fields).Merged?
    ensures MergeAll(ds, src, fields) == MergeAll(ds, src[..i], fields)
  {
    if i == |src| {
      assert src[..i] == src;
    } else {
      assert src[..|src| - 1][..i] == src[..i];
      MergeStops(ds, src[..|src| - 1], fields, i);
    }
  }

  lemma Trade(a: multiset<Ref>, b: multiset<Ref>, a1: multiset<Ref>, b1: multiset<Ref>, c: multiset<Ref>)
    requires a1 + b1 == a + b
    ensures a1 + b1 + c == a + b + c
    ensures a1 + c + b1 == a + c + b
  {
    assert a1 + c + b1 == a1 + b1 + c && a + c + b == a + b + c;
  }

  /** From one match to the next, or to the end. */
  lemma {:induction false} ScanSkips(ds: Dests, sf: Fields, fields: seq<string>, a: nat, j: int)
    requires j == -1 || a <= j < ds.nfact <= |ds.slots|
    requires forall k | a <= k < ds.nfact && k < |ds.slots| && (j >= 0 ==> k < j) && ds.slots[k].Some? ::
               !Matches(ds.w.FieldsOf(ds.slots[k].value), fields, sf)
    ensures Scan(ds, sf, fields, a) == if j < 0 then ds else Scan(ds, sf, fields, j)
    decreases |ds.slots| - a
  {
    if a < ds.nfact && a < |ds.slots| && a != j {
      ScanSkips(ds, sf, fields, a + 1, j);
    }
  }

  lemma ScanHits(ds: Dests, sf: Fields, fields: seq<string>, j: nat)
    requires j < ds.nfact && j < |ds.slots| && ds.slots[j].Some?
    requires Matches(ds.w.FieldsOf(ds.slots[j].value), fields, sf)
    ensures var r := ds.slots[j].value;
            Scan(ds, sf, fields, j)
            == Scan(Dests(ds.w.With(r, ds.w.FieldsOf(r) + sf), ds.slots[j := None], ds.nfact - 1, true), sf, fields,
                    j + 1)
  {
  }

  lemma Settle(r0: multiset<Ref>, r1: multiset<Ref>, r2: multiset<Ref>, r3: multiset<Ref>,
               a: multiset<Ref>, b: multiset<Ref>, c: multiset<Ref>, d: multiset<Ref>)
    requires r1 == r0 + a + c && r2 + a == r1 + b && r3 + c == r2 + d
    ensures r3 == r0 + b + d
  {
    forall x ensures r3[x] == (r0 + b + d)[x] {
      assert (r2 + a)[x] == (r1 + b)[x] && (r3 + c)[x] == (r2 + d)[x];
    }
  }

  lemma MoreReleased(refs: seq<Ref>, i: nat)
    requires i < |refs|
    ensures multiset(refs[..i + 1]) == multiset(refs[..i]) + multiset{refs[i]}
  {
    assert refs[..i + 1] == refs[..i] + [refs[i]];
  }

  lemma RestHeld(slots: seq<Option<Ref>>, refs: seq<Ref>, i: nat)
    requires i <= |refs| == |slots|
    requires forall k | 0 <= k < |refs| :: slots[k] == if k < i then None else Some(refs[k])
    ensures Live(slots) == refs[i..]
  {
    LivePrefix(slots, i);
    LiveNone(slots[..i]);
    assert slots[i..] == Occupied(refs[i..]);
    LiveOccupied(refs[i..]);
  }

  /** A selector raises at slot `j`: the facts after it are as they were. */
  lemma TestClashes(w: World, t: Test, before: seq<Option<Ref>>, pre: seq<Option<Ref>>, j: nat, rel: multiset<Ref>,
                    rel0: multiset<Ref>)
    requires j < |before| == |pre| && pre[j..] == before[j..] && before[j].Some?
    requires FilterOne(w, Live(before[..j]), t) == Some(Live(pre[..j])) && Keeps(w.FieldsOf(before[j].value), t).None?
    requires |Live(pre[..j])| <= |Live(before[..j])|
    requires rel + multiset(Live(pre[..j])) == rel0 + multiset(Live(before[..j]))
    ensures FilterOne(w, Live(before), t).None? && |Live(pre)| <= |Live(before)|
    ensures Drops(w, Live(before), t) <==> |Live(pre)| < |Live(before)|
    ensures rel + multiset(Live(pre)) == rel0 + multiset(Live(before))
  {
    hide FilterOne, Keeps, Live, Drops;
    LiveNext(before, j);
    FilterOneNext(w, Live(before[..j]), before[j].value, t);
    LivePrefix(before, j + 1);
    FilterOneStops(w, Live(before[..j + 1]), Live(before[j + 1..]), t);
    DropsStops(w, Live(before[..j]), before[j].value, Live(before[j + 1..]), t);
    LivePrefix(before, j);
    LivePrefix(pre, j);
    Both(Live(before[..j]), Live(before[j..]));
    Both(Live(pre[..j]), Live(before[j..]));
    Shift(rel, multiset(Live(pre[..j])), rel0, multiset(Live(before[..j])), multiset(Live(before[j..])));
  }

  lemma AssignedSame(w: World, s: Ref, d: Ref, partial: bool)
    ensures Assigned(w, d, w.FieldsOf(s), partial).FieldsOf(s) == w.FieldsOf(s)
  {
  }

  lemma UpdateNoDst(w: World, sf: Fields, dst: seq<Ref>, fields: seq<string>, partial: bool)
    ensures UpdateDsts(w, sf, dst[..0], fields, partial) == w
  {
  }

  lemma UpdateNextDst(w: World, sf: Fields, dst: seq<Ref>, fields: seq<string>, partial: bool, e: nat)
    requires e < |dst|
    ensures var w1 := UpdateDsts(w, sf, dst[..e], fields, partial);
            UpdateDsts(w, sf, dst[..e + 1], fields, partial)
            == if Matches(w1.FieldsOf(dst[e]), fields, sf)
               then Assigned(w1, dst[e], sf, partial)
               else w1
  {
    assert dst[..e + 1][..e] == dst[..e];
  }

  /** Destinations that do not match do not count. */
  lemma {:induction false} UpdateSkips(w: World, sf: Fields, dst: seq<Ref>, fields: seq<string>, partial: bool,
                                       a: nat, b: nat)
    requires a <= b <= |dst|
    requires var wa := UpdateDsts(w, sf, dst[..a], fields, partial);
             forall k | a <= k < b :: !Matches(wa.FieldsOf(dst[k]), fields, sf)
    ensures UpdateDsts(w, sf, dst[..b], fields, partial) == UpdateDsts(w, sf, dst[..a], fields, partial)
    decreases b
  {
    if a < b {
      UpdateSkips(w, sf, dst, fields, partial, a, b - 1);
      assert dst[..b][..b - 1] == dst[..b - 1];
    }
  }

  lemma UpdateNone(w: World, dst: seq<Ref>, fields: seq<string>, partial: bool)
    ensures UpdateAll(w, [], dst, fields, partial) == Done((), w)
  {
  }

  /** The next source decides, unless it succeeds. */
  lemma {:induction false} UpdateOneMore(w: World, src: seq<Ref>, dst: seq<Ref>, fields: seq<string>, partial: bool,
                                         i: nat, w1: World)
    requires i < |src|
    requires UpdateAll(w, src[..i], dst, fields, partial) == Done((), w1)
    ensures UpdateAll(w, src[..i + 1], dst, fields, partial) == UpdateSrc(w1, src[i], dst, fields, partial)
    ensures !UpdateSrc(w1, src[i], dst, fields, partial).Done? ==>
              UpdateAll(w, src, dst, fields, partial) == UpdateSrc(w1, src[i], dst, fields, partial)
  {
    assert src[..i + 1][..i] == src[..i];
    if !UpdateSrc(w1, src[i], dst, fields, partial).Done? {
      UpdateStops(w, src, dst, fields, partial, i + 1);
    }
  }

  lemma {:induction false} UpdateStops(w: World, src: seq<Ref>, dst: seq<Ref>, fields: seq<string>, partial: bool,
                                       i: nat)
    requires i <= |src|
    requires !UpdateAll(w, src[..i], dst, fields, partial).Done?
    ensures UpdateAll(w, src, dst, fields, partial) == UpdateAll(w, src[..i], dst, fields, partial)
  {
    if i == |src| {
      assert src[..i] == src;
    } else {
      assert src[..|src| - 1][..i] == src[..i];
      UpdateStops(w, src[..|src| - 1], dst, fields, partial, i);
    }
  }

  lemma UpdateSrcIs(w: World, s: Ref, dst: seq<Ref>, fields: seq<string>, partial: bool, k: nat)
    requires k == FirstMissing(w.FieldsOf(s), fields) && !(0 < k < |fields|)
    requires !UpdateSrc(w, s, dst, fields, partial).Undefined?
    ensures UpdateSrc(w, s, dst, fields, partial)
         == if SomeMatch(w, dst, fields, w.FieldsOf(s))
            then Done((), UpdateDsts(w, w.FieldsOf(s), dst, fields, partial))
            else Error(ENOENT, w)
  {
  }

  lemma {:induction false} UnmatchedSame(w: World, sf: Fields, dst: seq<Ref>, fields: seq<string>, partial: bool)
    requires !SomeMatch(w, dst, fields, sf)
    ensures UpdateDsts(w, sf, dst, fields, partial) == w
  {
    assert dst[..0] == [];
    assert dst[..|dst|] == dst;
    UpdateSkips(w, sf, dst, fields, partial, 0, |dst|);
  }

  lemma Both(a: seq<Ref>, b: seq<Ref>)
    ensures multiset(a + b) == multiset(a) + multiset(b)
  {
  }

  /** What is released and what is still held add up to what was held. */
  lemma Balance(rel: multiset<Ref>, rel1: multiset<Ref>, start: multiset<Ref>, held: seq<Ref>, held1: seq<Ref>,
                had: seq<Ref>, had1: seq<Ref>, was: Option<Ref>, now: Option<Ref>)
    requires rel + multiset(held) == start + multiset(had)
    requires had1 == if was.Some? then had + [was.value] else had
    requires held1 == if now.Some? then held + [now.value] else held
    requires now == None || now == was
    requires rel1 == if was.Some? && now == None then rel + multiset{was.value} else rel
    ensures rel1 + multiset(held1) == start + multiset(had1)
  {
    if was.Some? {
      var one := multiset{was.value};
      assert multiset([was.value]) == one;
      Both(had, [was.value]);
      Both(held, [was.value]);
      Shift(rel, multiset(held), start, multiset(had), one);
    }
  }

  lemma Shift(a: multiset<Ref>, b: multiset<Ref>, c: multiset<Ref>, d: multiset<Ref>, one: multiset<Ref>)
    requires a + b == c + d
    ensures (a + one) + b == c + (d + one)
    ensures a + (b + one) == c + (d + one)
  {
    assert (a + one) + b == (a + b) + one;
    assert a + (b + one) == (a + b) + one;
    assert c + (d + one) == (c + d) + one;
  }

  lemma LiveEmpty()
    ensures Live([]) == []
  {
  }

  lemma LiveNext(slots: seq<Option<Ref>>, j: nat)
    requires j < |slots|
    ensures Live(slots[..j + 1])
         == if slots[j].Some? then Live(slots[..j]) + [slots[j].value] else Live(slots[..j])
  {
    assert slots[..j + 1][..j] == slots[..j];
  }

  lemma NoneOccupied()
    ensures Occupied([]) == []
  {
  }

  lemma OccupiedNext(refs: seq<Ref>, slot: Option<Ref>)
    ensures slot.Some? ==> Occupied(refs + [slot.value]) == Occupied(refs) + [slot]
  {
  }

  lemma FilterOneEmpty(w: World, t: Test)
    ensures FilterOne(w, [], t) == Some([])
  {
  }

  lemma FilterOneNext(w: World, refs: seq<Ref>, r: Ref, t: Test)
    ensures FilterOne(w, refs + [r], t) ==
            match FilterOne(w, refs, t)
            case None => None
            case Some(rest) =>
              match Keeps(w.FieldsOf(r), t)
              case None => None
              case Some(b) => Some(if b then rest + [r] else rest)
  {
    assert (refs + [r])[..|refs|] == refs;
  }

  lemma FilterOneStops(w: World, a: seq<Ref>, b: seq<Ref>, t: Test)
    requires FilterOne(w, a, t).None?
    ensures FilterOne(w, a + b, t).None?
  {
    if b == [] {
      assert a + b == a;
    } else {
      FilterOneStops(w, a, b[..|b| - 1], t);
      assert (a + b)[..|a + b| - 1] == a + b[..|b| - 1];
    }
  }

  /** What comes after the clash does not matter. */
  lemma {:induction false} DropsStops(w: World, a: seq<Ref>, r: Ref, b: seq<Ref>, t: Test)
    requires FilterOne(w, a, t).Some? && Keeps(w.FieldsOf(r), t).None?
    ensures Drops(w, a + [r] + b, t) <==> |FilterOne(w, a, t).value| < |a|
  {
    hide FilterOne, Drops, Keeps;
    if b == [] {
      DropsNext(w, a, r, t);
      assert a + [r] + b == a + [r];
    } else {
      var init, last := b[..|b| - 1], b[|b| - 1];
      DropsStops(w, a, r, init, t);
      FilterOneNext(w, a, r, t);
      FilterOneStops(w, a + [r], init, t);
      DropsNext(w, a + [r] + init, last, t);
      assert a + [r] + b == a + [r] + init + [last];
    }
  }

  lemma DropsNext(w: World, refs: seq<Ref>, r: Ref, t: Test)
    ensures Drops(w, refs + [r], t)
       <==> match FilterOne(w, refs, t)
            case None => Drops(w, refs, t)
            case Some(kept) => Keeps(w.FieldsOf(r), t).None? && |kept| < |refs|
  {
    assert (refs + [r])[..|refs|] == refs;
  }

  /** A table with no holes. */
  lemma {:induction false} AllLive(slots: seq<Option<Ref>>)
    requires |Live(slots)| == |slots|
    ensures slots == Occupied(Live(slots))
  {
    if slots != [] {
      AllLive(slots[..|slots| - 1]);
    }
  }
}
