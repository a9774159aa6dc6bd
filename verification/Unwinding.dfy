/** When an exception of FILTER or REPLACE can be unwound.  VM_TRY frees the
    globals above its mark on the stack (include/dres/vm.h:624-633); that is
    undefined if FILTER left one with fewer facts than it counts, or if REPLACE
    has freed them already.  Seen from the rules: which selectors and which facts
    bring this about. */
module Unwinding {
  import opened Words
  import opened Facts
  import opened FactLaws
  import opened Machine
  import opened Lang
  import opened Emit
  import opened Correctness

  // ------------------------------------------------------------------
  // Selectors
  // ------------------------------------------------------------------

  /** Evaluating the operands of selectors is always defined and changes no fact. */
  lemma {:induction false} TestsDefined(cfg: Config, sels: seq<Selector>, depth: nat, scope: seq<Frame>, cap: nat,
                                        w: World)
    ensures var r := EvalTests(cfg, sels, depth, scope, cap, w);
            (r.Ok? || r.Exn?) && r.w == w
  {
    if sels != [] {
      TestsDefined(cfg, sels[..|sels| - 1], depth, scope, cap, w);
    }
  }

  ghost predicate Clashes(w: World, refs: seq<Facts.Ref>, tests: seq<Test>) {
    exists i, r | 0 <= i < |tests| && r in refs ::
      Satisfies(w.FieldsOf(r), tests[i + 1..]) && TypesClash(w.FieldsOf(r), tests[i])
  }

  ghost predicate ClashesFirst(w: World, refs: seq<Facts.Ref>, tests: seq<Test>) {
    exists k, i | 0 <= k < |tests| && 0 <= i < |refs| :: CleanClash(w, refs, tests, k, i)
  }

  /** Selecting facts raises an exception that can be unwound exactly if a type clash
      comes before any fact has been dropped; any other clash is undefined behaviour. */
  lemma SelectionDefined(cfg: Config, name: string, sels: seq<Selector>, depth: nat, scope: seq<Frame>, cap: nat,
                         w: World)
    ensures var t := EvalTests(cfg, sels, depth + 1, scope, GrowStr(cfg, cap, depth, name), w);
            var r, refs := EvalFiltered(cfg, name, sels, depth, scope, cap, w), Lookup(w, name).facts;
            && (t.Ok? ==> (r.Exn? <==> ClashesFirst(w, refs, t.val)))
            && (r.Bad? <==> t.Ok? && Clashes(w, refs, t.val) && !ClashesFirst(w, refs, t.val))
            && (t.Ok? && r.Ok? ==> r.val.facts == Selected(w, refs, t.val))
  {
    hide EvalTests, FilterAll, Torn, Lookup, CleanClash;
    var t := EvalTests(cfg, sels, depth + 1, scope, GrowStr(cfg, cap, depth, name), w);
    TestsDefined(cfg, sels, depth + 1, scope, GrowStr(cfg, cap, depth, name), w);
    if t.Ok? {
      FilterTorn(w, Lookup(w, name).facts, t.val);
      FilterRaises(w, Lookup(w, name).facts, t.val);
      FilterLaw(w, Lookup(w, name).facts, t.val);
    }
  }

  // ------------------------------------------------------------------
  // REPLACE
  // ------------------------------------------------------------------

  /** A destination of a REPLACE has no name exactly if the fact store knows facts of
      the name but the selectors pass none of them. */
  lemma UnnamedIff(cfg: Config, name: string, sels: seq<Selector>, depth: nat, scope: seq<Frame>, cap: nat, w: World)
    requires EvalFiltered(cfg, name, sels, depth, scope, cap, w).Ok?
    ensures var t := EvalTests(cfg, sels, depth + 1, scope, GrowStr(cfg, cap, depth, name), w);
            var dst := EvalFiltered(cfg, name, sels, depth, scope, cap, w).val;
            && t.Ok?
            && (ReplaceName(w, dst).None? <==>
                  (exists r | r in w.store :: w.Of(r).name == name)
                  && !exists r | r in w.store :: w.Of(r).name == name && Satisfies(w.FieldsOf(r), t.val))
  {
    hide EvalTests, FilterAll, Satisfies;
    var t := EvalTests(cfg, sels, depth + 1, scope, GrowStr(cfg, cap, depth, name), w);
    TestsDefined(cfg, sels, depth + 1, scope, GrowStr(cfg, cap, depth, name), w);
    SelectionDefined(cfg, name, sels, depth, scope, cap, w);
    NamedMembers(w, w.store, name);
    var refs := Lookup(w, name).facts;
    SelectedMembers(w, refs, t.val);
    var dst := EvalFiltered(cfg, name, sels, depth, scope, cap, w).val;
    assert dst.facts != [] <==> exists r :: r in dst.facts by {
      assert dst.facts != [] ==> dst.facts[0] in dst.facts;
    }
    assert Named(w, w.store, name) != [] <==> exists r :: r in Named(w, w.store, name) by {
      assert Named(w, w.store, name) != [] ==> Named(w, w.store, name)[0] in Named(w, w.store, name);
    }
  }

  lemma {:induction false} NamedMembers(w: World, refs: seq<Facts.Ref>, name: string)
    ensures forall r :: r in Named(w, refs, name) <==> r in refs && w.Of(r).name == name
  {
    if refs != [] {
      var init, last := refs[..|refs| - 1], refs[|refs| - 1];
      NamedMembers(w, init, name);
      assert forall r :: r in refs <==> r in init || r == last;
    }
  }

  /** Replacing by a value that is a set of facts, with sources that have all match
      fields, is undefined exactly for a destination without a name. */
  lemma ReplacingDefined(cfg: Config, l: VarRef, v: Value, depth: nat, scope: seq<Frame>, cap: nat, w: World)
    requires l.variable.GlobalVar? && l.field.None? && v.Glob?
    requires EvalFiltered(cfg, l.variable.name, l.selectors, depth + 1, scope, cap, w).Ok?
    requires var dst := EvalFiltered(cfg, l.variable.name, l.selectors, depth + 1, scope, cap, w).val;
             Distinct(dst.facts) && Apart(v.g.facts, dst.facts)
             && AllHave(w, v.g.facts, Reversed(MatchFields(l.selectors)))
             && (forall d | d in dst.facts :: d in w.store) && (forall s | s in v.g.facts :: s !in w.store)
    ensures var t := EvalTests(cfg, l.selectors, depth + 2, scope, GrowStr(cfg, cap, depth + 1, l.variable.name), w);
            && t.Ok?
            && (Store(cfg, Replacing, l, v, depth, scope, cap, w).Bad? <==>
                  (exists r | r in w.store :: w.Of(r).name == l.variable.name)
                  && !exists r | r in w.store :: w.Of(r).name == l.variable.name && Satisfies(w.FieldsOf(r), t.val))
  {
    hide EvalTests, EvalFiltered, ReplaceAll, ReplaceName, Reversed, MatchFields, Satisfies, GrowNames, AllHave,
         Distinct;
    var r := EvalFiltered(cfg, l.variable.name, l.selectors, depth + 1, scope, cap, w);
    FilteredSame(cfg, l.variable.name, l.selectors, depth + 1, scope, cap, w);
    UnnamedIff(cfg, l.variable.name, l.selectors, depth + 1, scope, cap, w);
    if ReplaceName(w, r.val).Some? {
      ReplaceLaw(w, v.g.facts, r.val.facts, Reversed(MatchFields(l.selectors)), ReplaceName(w, r.val).value);
    }
  }

  lemma FilteredSame(cfg: Config, name: string, sels: seq<Selector>, depth: nat, scope: seq<Frame>, cap: nat, w: World)
    ensures var r := EvalFiltered(cfg, name, sels, depth, scope, cap, w); !r.Silent? && (!r.Bad? ==> r.w == w)
  {
    hide EvalTests, FilterAll, Torn, Lookup;
    TestsDefined(cfg, sels, depth + 1, scope, GrowStr(cfg, cap, depth, name), w);
  }

  // ------------------------------------------------------------------
  // Inputs
  // ------------------------------------------------------------------

  /** Facts named "g": one with a number, one with a string in the same field. */
  const NUMBER := Fact("g", map["a" := IntField(6)])
  const TEXT := Fact("g", map["a" := StrField("s")])

  function Stored(facts: seq<Fact>): World {
    World(map i: nat | 0 <= i < |facts| :: facts[i], seq(|facts|, i => i), |facts|, 0, map[])
  }

  const FIVE := Selector("a", false, Some(OpInt(5)))

  /** `$h = $g[a:5]` */
  function Assigns(): Stmt {
    AssignStmt(Full, VarRef(GlobalVar("h"), [], None), Ref(VarRef(GlobalVar("g"), [FIVE], None)))
  }

  /** `$g[a:5] *= $y`. */
  function Replaces(): Stmt {
    AssignStmt(Replacing, VarRef(GlobalVar("g"), [FIVE], None), Ref(VarRef(GlobalVar("y"), [], None)))
  }

  lemma FiveTests(cfg: Config, depth: nat, scope: seq<Frame>, cap: nat, w: World)
    ensures var t := EvalTests(cfg, [FIVE], depth, scope, cap, w);
            t.Ok? && t.val == [Test("a", Int(5), false)] && t.w == w
  {
    assert [FIVE][..0] == [];
    TestsDefined(cfg, [FIVE], depth, scope, cap, w);
  }

  /** `$g[a:5]` when the store holds facts of that name. */
  lemma FiveFiltered(cfg: Config, depth: nat, scope: seq<Frame>, cap: nat, w: World)
    ensures var r := EvalFiltered(cfg, "g", [FIVE], depth, scope, cap, w);
            var t, refs := Test("a", Int(5), false), Lookup(w, "g").facts;
            && (FilterOne(w, refs, t).Some? ==> r.Ok? && r.val.facts == FilterOne(w, refs, t).value
                                                && r.val.name == Lookup(w, "g").name)
            && (FilterOne(w, refs, t).None? ==> if Drops(w, refs, t) then r.Bad? else r.Exn? && r.err == EINVAL)
            && (!r.Bad? ==> r.w == w)
  {
    hide EvalTests, FilterOne, Drops, Lookup;
    FiveTests(cfg, depth + 1, scope, GrowStr(cfg, cap, depth, "g"), w);
    assert [Test("a", Int(5), false)][..0] == [];
  }

  /** A target with one action. */
  lemma OneAction(cfg: Config, t: Stmt, m: Memory)
    requires AcceptsStmt(cfg, t) && FitsStmt(cfg, t)
    ensures VmExec(cfg, TargetCode(cfg, [t]).cells, TargetCode(cfg, [t]).n, m)
         == Expected(m, Run(cfg, t, |m.stack|, m.scope, m.cap, m.w))
  {
    hide VmExec, TargetCode, Run, AcceptsStmt, FitsStmt;
    assert [t][..0] == [];
    TargetCorrect(cfg, [t], m);
  }

  lemma SmallFits(cfg: Config)
    ensures AcceptsStmt(cfg, Assigns()) && FitsStmt(cfg, Assigns())
    ensures AcceptsStmt(cfg, Replaces()) && FitsStmt(cfg, Replaces())
  {
    assert [FIVE][..0] == [];
    assert MatchFields([FIVE]) == [] && MatchFields([]) == [];
  }

  /** The number is dropped and then the string clashes: undefined.  The other way
      round the string clashes at once: an exception. */
  lemma FilterInputs(cfg: Config, m: Memory)
    requires m.w == Stored([NUMBER, TEXT]) || m.w == Stored([TEXT, NUMBER])
    ensures var f := VmExec(cfg, TargetCode(cfg, [Assigns()]).cells, TargetCode(cfg, [Assigns()]).n, m);
            if m.w == Stored([NUMBER, TEXT]) then f == Stuck else f.Threw? && f.err == EINVAL && f.m.w == m.w
  {
    hide VmExec, TargetCode, EvalFiltered, FitsStmt, AcceptsStmt;
    SmallFits(cfg);
    OneAction(cfg, Assigns(), m);
    FiveFiltered(cfg, |m.stack|, m.scope, m.cap, m.w);
    BothFiltered(m.w);
  }

  lemma BothFiltered(w: World)
    requires w == Stored([NUMBER, TEXT]) || w == Stored([TEXT, NUMBER])
    ensures var refs, t := Lookup(w, "g").facts, Test("a", Int(5), false);
            FilterOne(w, refs, t).None? && (Drops(w, refs, t) <==> w == Stored([NUMBER, TEXT]))
  {
    var t := Test("a", Int(5), false);
    assert w.store == [0, 1] && w.heap.Keys == {0, 1};
    NamedBoth(w);
    assert [0, 1][..1] == [0] && [0][..0] == [];
    assert Keeps(NUMBER.fields, t) == Some(false) && Keeps(TEXT.fields, t) == None;
    assert FilterOne(w, [], t) == Some([]);
    if w == Stored([NUMBER, TEXT]) {
      assert w.FieldsOf(0) == NUMBER.fields && w.FieldsOf(1) == TEXT.fields;
      assert FilterOne(w, [0], t) == Some([]);
    } else {
      assert w.FieldsOf(0) == TEXT.fields && w.FieldsOf(1) == NUMBER.fields;
      assert FilterOne(w, [0], t) == None;
      assert !Drops(w, [0], t) && !Drops(w, [0, 1], t);
      assert Stored([NUMBER, TEXT]).FieldsOf(0) == NUMBER.fields;
    }
  }

  lemma NamedBoth(w: World)
    requires w.store == [0, 1] && w.Of(0).name == w.Of(1).name == "g"
    ensures Lookup(w, "g") == Global(None, [0, 1])
  {
    assert [0, 1][..1] == [0] && [0][..0] == [];
    assert Named(w, [0], "g") == [0];
    assert Named(w, [0, 1], "g") == [0, 1];
  }

  /** A replacement of facts that are there but not selected: undefined.  With no fact
      of that name at all, the name of the global serves. */
  lemma ReplaceInputs(cfg: Config, m: Memory)
    requires m.w == Stored([NUMBER]) || m.w == Stored([])
    ensures var f := VmExec(cfg, TargetCode(cfg, [Replaces()]).cells, TargetCode(cfg, [Replaces()]).n, m);
            if m.w == Stored([NUMBER]) then f == Stuck else f.Ran? && f.halted
  {
    hide VmExec, TargetCode, EvalFiltered, FitsStmt, AcceptsStmt;
    SmallFits(cfg);
    OneAction(cfg, Replaces(), m);
    PlainFiltered(cfg, |m.stack|, m.scope, m.cap, m.w);
    var r := EvalFiltered(cfg, "y", [], |m.stack|, m.scope, m.cap, m.w);
    FiveFiltered(cfg, |m.stack| + 1, m.scope, r.cap, m.w);
    OneFiltered(m.w);
    assert [FIVE][..0] == [] && MatchFields([FIVE]) == [] && Reversed([]) == [];
    assert MatchFields(Replaces().lvalue.selectors) == [];
    assert Truncated("g") == "g";
  }

  /** `$y` when the store holds no fact of that name. */
  lemma PlainFiltered(cfg: Config, depth: nat, scope: seq<Frame>, cap: nat, w: World)
    requires w == Stored([NUMBER]) || w == Stored([])
    ensures var r := EvalFiltered(cfg, "y", [], depth, scope, cap, w);
            r.Ok? && r.w == w && r.val == Global(Some("y"), [])
  {
    assert w.store == [] || w.store == [0];
    assert [0][..0] == [];
    assert Named(w, w.store, "y") == [];
  }

  lemma OneFiltered(w: World)
    requires w == Stored([NUMBER]) || w == Stored([])
    ensures FilterOne(w, Lookup(w, "g").facts, Test("a", Int(5), false)) == Some([])
    ensures Lookup(w, "g").name == if w == Stored([NUMBER]) then None else Some("g")
  {
    assert Stored([]).store == [] && Stored([NUMBER]).store == [0];
    assert [0][..0] == [];
    if w == Stored([NUMBER]) {
      assert w.Of(0) == NUMBER;
      assert Named(w, [0], "g") == [0];
    }
  }
}
