/** The shape of emitted code: it is made of whole instructions, every branch goes
    forward to the beginning of one, and a run of a target never fails one of the
    checks on the size of the code (src/vm-instr.c:108-114, 1059-1069). */
module Layout {
  import opened Words
  import opened Facts
  import opened Machine
  import opened Lang
  import opened Emit
  import opened Correctness

  /** The number of words of an instruction. */
  function Length(cfg: Config, i: Instr): (n: nat)
    ensures n >= 1
  {
    match i
    case PushInt(data) => if data != 0 then 1 else 2
    case PushDouble => 1 + cfg.width.Cells(8)
    case PushString(len) => 1 + cfg.width.Cells(len)
    case PushGlobal(len) => 1 + cfg.width.Cells(len)
    case _ => 1
  }

  /** From word `i` a whole number of instructions leads to word `j`. */
  predicate Walks(cfg: Config, code: seq<Cell>, i: nat, j: nat)
    decreases if i <= j then j - i else 0
  {
    || i == j
    || (i < j && i < |code| && code[i].Word? && Walks(cfg, code, i + Length(cfg, Decode(code[i].bits)), j))
  }

  /** A branch goes forward to the beginning of an instruction, or to the end. */
  predicate BranchFits(cfg: Config, code: seq<Cell>, pc: nat)
    requires pc < |code|
  {
    code[pc].Word? && Decode(code[pc].bits).Branch? ==>
      var d := Decode(code[pc].bits).diff; 0 < d <= |code| - pc && Walks(cfg, code, pc, pc + d)
  }

  ghost predicate Laid(cfg: Config, code: seq<Cell>) {
    Walks(cfg, code, 0, |code|) && forall pc | 0 <= pc < |code| && Walks(cfg, code, 0, pc) :: BranchFits(cfg, code, pc)
  }

  // ------------------------------------------------------------------
  // Walking
  // ------------------------------------------------------------------

  lemma {:induction false} WalksOn(cfg: Config, code: seq<Cell>, i: nat, j: nat, k: nat)
    requires Walks(cfg, code, i, j) && Walks(cfg, code, j, k)
    ensures Walks(cfg, code, i, k) && i <= j <= k
    decreases j - i
  {
    hide Decode, Length;
    WalksUp(cfg, code, i, j);
    WalksUp(cfg, code, j, k);
    if i < j {
      WalksUp(cfg, code, i + Length(cfg, Decode(code[i].bits)), j);
      WalksOn(cfg, code, i + Length(cfg, Decode(code[i].bits)), j, k);
    }
  }

  lemma {:induction false} WalksUp(cfg: Config, code: seq<Cell>, i: nat, j: nat)
    requires Walks(cfg, code, i, j)
    ensures i <= j
    decreases if i <= j then j - i else 0
  {
  }

  /** There is one way to walk. */
  lemma {:induction false} WalksBetween(cfg: Config, code: seq<Cell>, i: nat, j: nat, k: nat)
    requires Walks(cfg, code, i, j) && Walks(cfg, code, i, k) && j <= k
    ensures Walks(cfg, code, j, k)
    decreases if i <= j then j - i else 0
  {
    hide Decode, Length;
    WalksUp(cfg, code, i, j);
    if i < j {
      WalksUp(cfg, code, i + Length(cfg, Decode(code[i].bits)), j);
      WalksBetween(cfg, code, i + Length(cfg, Decode(code[i].bits)), j, k);
    }
  }

  /** Code keeps its instructions wherever it is put. */
  lemma {:induction false} WalksWithin(cfg: Config, code: seq<Cell>, at: nat, part: seq<Cell>, i: nat, j: nat)
    requires at + |part| <= |code| && code[at..at + |part|] == part && j <= |part|
    ensures Walks(cfg, part, i, j) <==> Walks(cfg, code, at + i, at + j)
    decreases if i <= j then j - i else 0
  {
    hide Decode, Length;
    if i < j {
      assert part[i] == code[at + i];
      if part[i].Word? {
        WalksWithin(cfg, code, at, part, i + Length(cfg, Decode(part[i].bits)), j);
      }
    }
  }

  lemma LaidBoth(cfg: Config, a: seq<Cell>, b: seq<Cell>)
    requires Laid(cfg, a) && Laid(cfg, b)
    ensures Laid(cfg, a + b)
  {
    hide Decode, Length, Walks;
    var code := a + b;
    assert code[0..0 + |a|] == a && code[|a|..|a| + |b|] == b;
    WalksWithin(cfg, code, 0, a, 0, |a|);
    WalksWithin(cfg, code, |a|, b, 0, |b|);
    WalksOn(cfg, code, 0, |a|, |code|);
    forall pc | 0 <= pc < |code| && Walks(cfg, code, 0, pc) ensures BranchFits(cfg, code, pc) {
      if pc < |a| {
        WalksWithin(cfg, code, 0, a, 0, pc);
        assert BranchFits(cfg, a, pc) && code[pc] == a[pc];
        if code[pc].Word? && Decode(code[pc].bits).Branch? {
          WalksWithin(cfg, code, 0, a, pc, pc + Decode(code[pc].bits).diff);
        }
      } else {
        WalksBetween(cfg, code, 0, |a|, pc);
        WalksWithin(cfg, code, |a|, b, 0, pc - |a|);
        assert BranchFits(cfg, b, pc - |a|) && code[pc] == b[pc - |a|];
        if code[pc].Word? && Decode(code[pc].bits).Branch? {
          WalksWithin(cfg, code, |a|, b, pc - |a|, pc - |a| + Decode(code[pc].bits).diff);
        }
      }
    }
  }

  lemma LaidNothing(cfg: Config)
    ensures Laid(cfg, [])
  {
  }

  /** One instruction that is no branch. */
  lemma LaidOne(cfg: Config, code: seq<Cell>, i: Instr)
    requires code != [] && code[0].Word? && Decode(code[0].bits) == i && !i.Branch? && Length(cfg, i) == |code|
    ensures Laid(cfg, code)
  {
    hide Decode, Length;
    assert Walks(cfg, code, |code|, |code|);
    assert Walks(cfg, code, 0, |code|);
    forall pc | 0 < pc < |code| ensures !Walks(cfg, code, 0, pc) {
      assert !Walks(cfg, code, |code|, pc);
    }
  }

  /** A branch over the first `d - 1` words of what follows. */
  lemma LaidBranch(cfg: Config, kind: nat, d: nat, rest: seq<Cell>)
    requires kind <= BRANCH_NE && 0 < d < 0x20_0000 && d - 1 <= |rest| && Walks(cfg, rest, 0, d - 1) && Laid(cfg, rest)
    ensures Laid(cfg, BranchCode(cfg, kind, d).cells + rest)
  {
    hide Decode, BranchWord;
    BranchRoundTrip(cfg.width, kind, d);
    var word := Word(BranchWord(cfg.width, kind, d));
    var code := [word] + rest;
    assert code[1..1 + |rest|] == rest;
    assert Decode(code[0].bits) == Branch(kind, d) && Length(cfg, Branch(kind, d)) == 1;
    WalksWithin(cfg, code, 1, rest, 0, |rest|);
    WalksWithin(cfg, code, 1, rest, 0, d - 1);
    assert Walks(cfg, code, 1, |code|) && Walks(cfg, code, 1, d);
    assert Walks(cfg, code, 0, |code|) && Walks(cfg, code, 0, 1) by {
      assert Walks(cfg, code, 1, 1);
    }
    forall pc | 0 <= pc < |code| && Walks(cfg, code, 0, pc) ensures BranchFits(cfg, code, pc) {
      if pc > 0 {
        BranchRest(cfg, code, rest, pc);
      }
    }
  }

  lemma BranchRest(cfg: Config, code: seq<Cell>, rest: seq<Cell>, pc: nat)
    requires |code| == |rest| + 1 && code[1..] == rest && Laid(cfg, rest)
    requires Walks(cfg, code, 0, 1) && 0 < pc < |code| && Walks(cfg, code, 0, pc)
    ensures BranchFits(cfg, code, pc)
  {
    hide Decode, Length, Walks;
    assert code[1..1 + |rest|] == rest;
    WalksBetween(cfg, code, 0, 1, pc);
    WalksWithin(cfg, code, 1, rest, 0, pc - 1);
    assert BranchFits(cfg, rest, pc - 1) && code[pc] == rest[pc - 1];
    if code[pc].Word? && Decode(code[pc].bits).Branch? {
      WalksWithin(cfg, code, 1, rest, pc - 1, pc - 1 + Decode(code[pc].bits).diff);
    }
  }

  // ------------------------------------------------------------------
  // Emitted code
  // ------------------------------------------------------------------

  lemma LaidInt(cfg: Config, v: int)
    requires FitsInt(v)
    ensures Laid(cfg, PushIntCode(cfg, v).cells)
    ensures 0 <= v < 0xfffe ==> |PushIntCode(cfg, v).cells| == 1
  {
    hide Decode, PushWord, Uptr;
    PushIntDecodes(cfg.width, v);
    LaidOne(cfg, PushIntCode(cfg, v).cells, Decode(PushIntWords(cfg.width, v)[0]));
  }

  lemma LaidText(cfg: Config, global: bool, s: string)
    requires FitsStr(cfg, s)
    ensures Laid(cfg, PushTextCode(cfg, if global then TYPE_GLOBAL else TYPE_STRING, s).cells)
  {
    hide Decode, PushWord;
    PushDecodes(cfg.width, if global then TYPE_GLOBAL else TYPE_STRING, |s| + 1);
    SomeCells(cfg, |s| + 1);
    LaidOne(cfg, PushTextCode(cfg, if global then TYPE_GLOBAL else TYPE_STRING, s).cells,
            if global then PushGlobal(|s| + 1) else PushString(|s| + 1));
  }

  lemma LaidDbl(cfg: Config, d: real)
    ensures Laid(cfg, PushDblCode(cfg, d).cells)
  {
    hide Decode, PushWord;
    PushDecodes(cfg.width, TYPE_DOUBLE, 0);
    SomeCells(cfg, 8);
    LaidOne(cfg, PushDblCode(cfg, d).cells, PushDouble);
  }

  lemma LaidWord(cfg: Config, bits: nat)
    requires !Decode(bits).Branch? && Length(cfg, Decode(bits)) == 1
    ensures Laid(cfg, One(bits).cells)
  {
    hide Decode, Length;
    LaidOne(cfg, One(bits).cells, Decode(bits));
  }

  lemma LaidIntWord(cfg: Config, op: nat, n: nat)
    requires op < 0x100 && op != OP_PUSH && op != OP_BRANCH && n < 0x7f_ffff
    ensures Laid(cfg, One(IntWord(cfg.width, op, n)).cells)
  {
    hide IntWord, Decode;
    IntWordDecodes(cfg.width, op, n);
    LaidWord(cfg, IntWord(cfg.width, op, n));
  }

  lemma LaidOperand(cfg: Config, o: Operand)
    requires FitsOperand(cfg, o)
    ensures Laid(cfg, OperandCode(cfg, o).cells)
  {
    hide PushIntCode, PushTextCode, PushDblCode, GetLocalWord, Decode;
    match o
    case OpInt(i) => LaidInt(cfg, i);
    case OpDbl(d) => LaidDbl(cfg, d);
    case OpStr(s) => LaidText(cfg, false, s);
    case OpGlobal(name) => LaidText(cfg, true, name);
    case OpLocal(idx) => LaidLocal(cfg, idx);
  }

  lemma LaidLocal(cfg: Config, idx: nat)
    requires idx < GET_LOCAL
    ensures Laid(cfg, GetLocalCode(cfg, idx).cells)
  {
    hide GetLocalWord, Decode;
    GetLocalDecodes(cfg.width, idx);
    LaidWord(cfg, GetLocalWord(cfg.width, idx));
  }

  lemma {:induction false} LaidTests(cfg: Config, sels: seq<Selector>)
    requires forall i | 0 <= i < |sels| :: FitsStr(cfg, sels[i].field)
                                        && (sels[i].operand.Some? ==> FitsOperand(cfg, sels[i].operand.value))
    ensures Laid(cfg, TestsCode(cfg, sels).cells)
  {
    hide PushIntCode, PushTextCode, OperandCode, Laid, FitsOperand, FitsStr;
    if sels == [] {
      LaidNothing(cfg);
    } else {
      var rest, sel := TestsCode(cfg, sels[..|sels| - 1]), sels[|sels| - 1];
      LaidTests(cfg, sels[..|sels| - 1]);
      if sel.operand.Some? {
        var a, b, c := PushIntCode(cfg, if sel.neq then RELOP_NE else RELOP_EQ), OperandCode(cfg, sel.operand.value),
                       PushStrCode(cfg, sel.field);
        LaidInt(cfg, if sel.neq then RELOP_NE else RELOP_EQ);
        LaidOperand(cfg, sel.operand.value);
        LaidText(cfg, false, sel.field);
        LaidBoth(cfg, a.cells, b.cells);
        LaidBoth(cfg, a.cells + b.cells, c.cells);
        LaidBoth(cfg, rest.cells, a.cells + b.cells + c.cells);
      }
    }
  }

  lemma LaidFiltered(cfg: Config, name: string, sels: seq<Selector>)
    requires FitsStr(cfg, name) && |sels| < COUNT_LIMIT
    requires forall i | 0 <= i < |sels| :: FitsStr(cfg, sels[i].field)
                                        && (sels[i].operand.Some? ==> FitsOperand(cfg, sels[i].operand.value))
    ensures Laid(cfg, FilteredCode(cfg, name, sels).cells)
  {
    hide PushTextCode, TestsCode, Laid, FitsOperand, FitsStr, IntWord;
    CountBound(sels);
    LaidText(cfg, true, name);
    LaidTests(cfg, sels);
    LaidBoth(cfg, PushGlobalCode(cfg, name).cells, TestsCode(cfg, sels).cells);
    if CountTests(sels) > 0 {
      LaidIntWord(cfg, OP_FILTER, CountTests(sels));
      LaidBoth(cfg, PushGlobalCode(cfg, name).cells + TestsCode(cfg, sels).cells,
               One(IntWord(cfg.width, OP_FILTER, CountTests(sels))).cells);
    }
  }

  lemma LaidRef(cfg: Config, r: VarRef)
    requires FitsRef(cfg, r)
    ensures Laid(cfg, RefCode(cfg, r).cells)
  {
    hide FilteredCode, PushTextCode, Laid, FitsOperand, FitsStr, IntWord, GetLocalCode;
    match r.variable
    case Local(idx) => LaidLocal(cfg, idx);
    case GlobalVar(name) =>
      LaidFiltered(cfg, name, r.selectors);
      if r.field.Some? {
        LaidText(cfg, false, r.field.value);
        LaidBoth(cfg, FilteredCode(cfg, name, r.selectors).cells, PushStrCode(cfg, r.field.value).cells);
        GetFieldDecodes(cfg.width);
        LaidWord(cfg, IntWord(cfg.width, OP_GET, GET_FIELD));
        LaidBoth(cfg, FilteredCode(cfg, name, r.selectors).cells + PushStrCode(cfg, r.field.value).cells,
                 One(IntWord(cfg.width, OP_GET, GET_FIELD)).cells);
      }
  }

  lemma {:induction false} LaidBindings(cfg: Config, locals: seq<Binding>)
    requires forall i | 0 <= i < |locals| :: FitsOperand(cfg, locals[i].operand) && locals[i].idx < COUNT_LIMIT
    ensures Laid(cfg, BindingsCode(cfg, locals).cells)
  {
    hide OperandCode, PushIntCode, Laid, FitsOperand;
    if locals == [] {
      LaidNothing(cfg);
    } else {
      var init, b := locals[..|locals| - 1], locals[|locals| - 1];
      LaidBindings(cfg, init);
      LaidOperand(cfg, b.operand);
      LaidInt(cfg, b.idx);
      LaidBoth(cfg, BindingsCode(cfg, init).cells, OperandCode(cfg, b.operand).cells);
      LaidBoth(cfg, BindingsCode(cfg, init).cells + OperandCode(cfg, b.operand).cells, PushIntCode(cfg, b.idx).cells);
    }
  }

  lemma LaidCallTail(cfg: Config, name: string, narg: nat, locals: seq<Binding>)
    requires narg < COUNT_LIMIT && |locals| < COUNT_LIMIT && |cfg.methods| < COUNT_LIMIT
    requires forall i | 0 <= i < |locals| :: FitsOperand(cfg, locals[i].operand) && locals[i].idx < COUNT_LIMIT
    ensures Laid(cfg, CallTail(cfg, name, narg, locals).cells)
  {
    hide BindingsCode, PushIntCode, Laid, FitsOperand, IntWord, PushWord, Decode;
    var id := PushIntCode(cfg, MethodId(cfg.methods, name)).cells;
    LaidInt(cfg, MethodId(cfg.methods, name));
    LaidIntWord(cfg, OP_CALL, narg);
    LaidBoth(cfg, id, One(IntWord(cfg.width, OP_CALL, narg)).cells);
    var call := id + One(IntWord(cfg.width, OP_CALL, narg)).cells;
    if locals == [] {
      assert CallTail(cfg, name, narg, locals).cells == [] + call + [];
      assert [] + call + [] == call;
    } else {
      LaidBindings(cfg, locals);
      PushDecodes(cfg.width, TYPE_LOCAL, |locals|);
      var enter := One(PushWord(cfg.width, TYPE_LOCAL, |locals|)).cells;
      LaidWord(cfg, PushWord(cfg.width, TYPE_LOCAL, |locals|));
      LaidBoth(cfg, BindingsCode(cfg, locals).cells, enter);
      LaidBoth(cfg, BindingsCode(cfg, locals).cells + enter, call);
      LaidIntWord(cfg, OP_POP, 0);
      LaidBoth(cfg, BindingsCode(cfg, locals).cells + enter + call, One(IntWord(cfg.width, OP_POP, 0)).cells);
    }
  }

  lemma LaidCall(cfg: Config, name: string, args: seq<Expr>, locals: seq<Binding>)
    requires FitsCall(cfg, args, locals)
    ensures Laid(cfg, CallCode(cfg, name, args, locals).cells)
    decreases args, 1
  {
    hide Laid, FitsExpr, CallTail;
    LaidArgs(cfg, args);
    LaidCallTail(cfg, name, |args|, locals);
    LaidBoth(cfg, ArgsCode(cfg, args).cells, CallTail(cfg, name, |args|, locals).cells);
  }

  lemma LaidArgs(cfg: Config, args: seq<Expr>)
    requires forall i | 0 <= i < |args| :: FitsExpr(cfg, args[i])
    ensures Laid(cfg, ArgsCode(cfg, args).cells)
    decreases args, 0
  {
    hide Laid, FitsExpr, ExprCode;
    if args == [] {
      LaidNothing(cfg);
    } else {
      LaidArgs(cfg, args[..|args| - 1]);
      LaidExpr(cfg, args[|args| - 1]);
      LaidBoth(cfg, ArgsCode(cfg, args[..|args| - 1]).cells, ExprCode(cfg, args[|args| - 1]).cells);
    }
  }

  /** The two patched branches of && and || land behind the result they skip. */
  lemma LaidShort(cfg: Config, a: Code, b: Code, kind: nat, last: int)
    requires Laid(cfg, a.cells) && Laid(cfg, b.cells) && |b.cells| + 4 < 0x20_0000
    requires BRANCH_ALWAYS < kind <= BRANCH_NE && 0 <= last <= 1
    ensures Laid(cfg, ShortCircuit(cfg, a, b, kind, last).cells)
  {
    hide Laid, PushIntCode, Walks, Decode, BranchWord;
    var p, q := PushIntCode(cfg, 1 - last).cells, PushIntCode(cfg, last).cells;
    LaidInt(cfg, 1 - last);
    LaidInt(cfg, last);
    LaidWhole(cfg, q);
    LaidBranch(cfg, BRANCH_ALWAYS, 2, q);
    var e4 := BranchCode(cfg, BRANCH_ALWAYS, 2).cells + q;
    LaidBoth(cfg, p, e4);
    var e3 := p + e4;
    // over one push and one branch
    LaidWhole(cfg, p);
    Skips(cfg, p, e4, 1, BRANCH_ALWAYS, 2);
    LaidBranch(cfg, kind, 3, e3);
    var e2 := BranchCode(cfg, kind, 3).cells + e3;
    LaidBoth(cfg, b.cells, e2);
    var e1 := b.cells + e2;
    // over the second operand as well
    LaidWhole(cfg, b.cells);
    SkipsThree(cfg, b.cells, e2, e3, kind);
    LaidBranch(cfg, kind, |b.cells| + 4, e1);
    LaidBoth(cfg, a.cells, BranchCode(cfg, kind, |b.cells| + 4).cells + e1);
    var c := ShortCircuit(cfg, a, b, kind, last).cells;
    assert c == a.cells + (BranchCode(cfg, kind, |b.cells| + 4).cells + e1);
  }

  lemma LaidWhole(cfg: Config, code: seq<Cell>)
    requires Laid(cfg, code)
    ensures Walks(cfg, code, 0, |code|)
  {
  }

  /** Past `a` and the branch that follows it. */
  lemma Skips(cfg: Config, a: seq<Cell>, b: seq<Cell>, n: nat, kind: nat, d: nat)
    requires Walks(cfg, a, 0, n) && n == |a| && kind <= BRANCH_NE
    requires b != [] && b[0] == Word(BranchWord(cfg.width, kind, d))
    ensures Walks(cfg, a + b, 0, n + 1)
  {
    hide Decode, BranchWord;
    var code := a + b;
    assert code[0..0 + |a|] == a;
    WalksWithin(cfg, code, 0, a, 0, n);
    BranchRoundTrip(cfg.width, kind, d);
    assert code[n] == b[0] && Length(cfg, Decode(code[n].bits)) == 1;
    assert Walks(cfg, code, n + 1, n + 1);
    assert Walks(cfg, code, n, n + 1);
    WalksOn(cfg, code, 0, n, n + 1);
  }

  /** Past the second operand, a branch, a push and another branch. */
  lemma SkipsThree(cfg: Config, b: seq<Cell>, e2: seq<Cell>, e3: seq<Cell>, kind: nat)
    requires Walks(cfg, b, 0, |b|) && kind <= BRANCH_NE
    requires e2 == BranchCode(cfg, kind, 3).cells + e3 && |e3| >= 2 && Walks(cfg, e3, 0, 2)
    ensures Walks(cfg, b + e2, 0, |b| + 3)
  {
    hide Decode, BranchWord, Walks;
    var code := b + e2;
    Skips(cfg, b, e2, |b|, kind, 3);
    assert code[|b| + 1..|b| + 1 + |e3|] == e3;
    WalksWithin(cfg, code, |b| + 1, e3, 0, 2);
    WalksOn(cfg, code, 0, |b| + 1, |b| + 3);
  }

  lemma LaidExpr(cfg: Config, e: Expr)
    requires FitsExpr(cfg, e)
    ensures Laid(cfg, ExprCode(cfg, e).cells)
    decreases e, 2
  {
    hide Laid, RefCode, CallCode, PushIntCode, PushTextCode, PushDblCode, IntWord, FitsRef, FitsCall, ShortCircuit;
    match e
    case ConstInt(i) => LaidInt(cfg, i);
    case ConstDbl(d) => LaidDbl(cfg, d);
    case ConstStr(s) => LaidText(cfg, false, s);
    case Ref(r) => LaidRef(cfg, r);
    case Rel(op, a, b) =>
      LaidExpr(cfg, b);
      LaidExpr(cfg, a);
      LaidBoth(cfg, ExprCode(cfg, b).cells, ExprCode(cfg, a).cells);
      LaidIntWord(cfg, OP_CMP, op);
      LaidBoth(cfg, ExprCode(cfg, b).cells + ExprCode(cfg, a).cells, One(IntWord(cfg.width, OP_CMP, op)).cells);
    case Not(a) =>
      LaidExpr(cfg, a);
      LaidIntWord(cfg, OP_CMP, RELOP_NOT);
      LaidBoth(cfg, ExprCode(cfg, a).cells, One(IntWord(cfg.width, OP_CMP, RELOP_NOT)).cells);
    case Or(a, b) =>
      LaidExpr(cfg, a);
      LaidExpr(cfg, b);
      LaidShort(cfg, ExprCode(cfg, a), ExprCode(cfg, b), BRANCH_EQ, 1);
    case And(a, b) =>
      LaidExpr(cfg, a);
      LaidExpr(cfg, b);
      LaidShort(cfg, ExprCode(cfg, a), ExprCode(cfg, b), BRANCH_NE, 0);
    case CallExpr(name, args, locals) => LaidCall(cfg, name, args, locals);
  }

  lemma {:induction false} LaidNames(cfg: Config, names: seq<string>)
    requires forall i | 0 <= i < |names| :: FitsStr(cfg, names[i])
    ensures Laid(cfg, NamesCode(cfg, names).cells)
  {
    hide Laid, PushTextCode, FitsStr;
    if names == [] {
      LaidNothing(cfg);
    } else {
      LaidNames(cfg, names[..|names| - 1]);
      LaidText(cfg, false, names[|names| - 1]);
      LaidBoth(cfg, NamesCode(cfg, names[..|names| - 1]).cells, PushStrCode(cfg, names[|names| - 1]).cells);
    }
  }

  lemma LaidStoreWord(cfg: Config, kind: AssignKind, names: seq<string>, field: Option<string>)
    requires |names| < COUNT_LIMIT && FitsStore(kind, |names|)
    ensures Laid(cfg, One(StoreWord(cfg, kind, names, field)).cells)
  {
    hide Laid, Decode, IntWord, UpdateWord, ReplaceWord;
    if names != [] && !kind.Replacing? {
      UpdateRoundTrip(cfg.width, |names|, kind.Partial?);
      LaidWord(cfg, UpdateWord(cfg.width, |names|, kind.Partial?));
    } else if names == [] && field.Some? {
      LaidIntWord(cfg, OP_SET, 1);
    } else if kind.Replacing? {
      ReplaceDecodes(cfg.width, |names|);
      LaidWord(cfg, ReplaceWord(cfg.width, |names|));
    } else {
      LaidIntWord(cfg, OP_SET, 0);
    }
  }

  lemma LaidStore(cfg: Config, kind: AssignKind, l: VarRef)
    requires AcceptsStore(kind, l) && FitsRef(cfg, l) && FitsStore(kind, |MatchFields(l.selectors)|)
    ensures Laid(cfg, StoreCode(cfg, kind, l).cells)
  {
    hide Laid, FilteredCode, StoreWord, PushTextCode, NamesCode, FitsStr, FitsOperand, MatchFields;
    var names := MatchFields(l.selectors);
    CountBound(l.selectors);
    MatchFieldsFit(cfg, l.selectors);
    StoreCodeIs(cfg, kind, l);
    LaidFiltered(cfg, l.variable.name, l.selectors);
    LaidStoreWord(cfg, kind, names, l.field);
    if names == [] && l.field.Some? {
      LaidText(cfg, false, l.field.value);
    } else {
      LaidNames(cfg, names);
    }
    var c, o := FilteredCode(cfg, l.variable.name, l.selectors), OperandsCode(cfg, names, l.field);
    LaidBoth(cfg, c.cells, o.cells);
    LaidBoth(cfg, c.cells + o.cells, One(StoreWord(cfg, kind, names, l.field)).cells);
  }

  lemma LaidStmt(cfg: Config, s: Stmt)
    requires AcceptsStmt(cfg, s) && FitsStmt(cfg, s)
    ensures Laid(cfg, StmtCode(cfg, s).cells)
    decreases s, 1
  {
    match s
    case AssignStmt(kind, l, e) => LaidAssign(cfg, kind, l, e);
    case CallStmt(name, args, locals) => LaidCallStmt(cfg, name, args, locals);
    case IfStmt(cond, thn, els) =>
      LaidStmts(cfg, thn);
      LaidStmts(cfg, els);
      LaidIf(cfg, cond, thn, els);
  }

  lemma LaidAssign(cfg: Config, kind: AssignKind, l: VarRef, e: Expr)
    requires AcceptsStore(kind, l) && FitsExpr(cfg, e) && FitsRef(cfg, l) && FitsStore(kind, |MatchFields(l.selectors)|)
    ensures Laid(cfg, StmtCode(cfg, AssignStmt(kind, l, e)).cells)
  {
    hide Laid, ExprCode, StoreCode, FitsExpr, FitsRef;
    LaidExpr(cfg, e);
    LaidStore(cfg, kind, l);
    LaidBoth(cfg, ExprCode(cfg, e).cells, StoreCode(cfg, kind, l).cells);
  }

  lemma LaidCallStmt(cfg: Config, name: string, args: seq<Expr>, locals: seq<Binding>)
    requires FitsCall(cfg, args, locals)
    ensures Laid(cfg, StmtCode(cfg, CallStmt(name, args, locals)).cells)
  {
    hide Laid, CallCode, IntWord, FitsCall;
    LaidCall(cfg, name, args, locals);
    LaidIntWord(cfg, OP_POP, 1);
    LaidBoth(cfg, CallCode(cfg, name, args, locals).cells, One(IntWord(cfg.width, OP_POP, 1)).cells);
  }

  /** The branch over the first part lands behind the branch that ends it. */
  lemma LaidIf(cfg: Config, cond: Expr, thn: seq<Stmt>, els: seq<Stmt>)
    requires FitsExpr(cfg, cond) && Laid(cfg, StmtsCode(cfg, thn).cells) && Laid(cfg, StmtsCode(cfg, els).cells)
    requires |StmtsCode(cfg, thn).cells| + 2 < 0x20_0000 && |StmtsCode(cfg, els).cells| + 2 < 0x20_0000
    ensures Laid(cfg, StmtCode(cfg, IfStmt(cond, thn, els)).cells)
  {
    hide Laid, ExprCode, StmtsCode, FitsExpr, BranchWord, Walks;
    var c, t, e := ExprCode(cfg, cond).cells, StmtsCode(cfg, thn).cells, StmtsCode(cfg, els).cells;
    LaidExpr(cfg, cond);
    LaidWhole(cfg, t);
    if els == [] {
      LaidBranch(cfg, BRANCH_NE, |t| + 1, t);
      LaidBoth(cfg, c, BranchCode(cfg, BRANCH_NE, |t| + 1).cells + t);
      assert StmtCode(cfg, IfStmt(cond, thn, els)).cells == c + (BranchCode(cfg, BRANCH_NE, |t| + 1).cells + t);
    } else {
      LaidWhole(cfg, e);
      LaidBranch(cfg, BRANCH_ALWAYS, |e| + 1, e);
      var e1 := BranchCode(cfg, BRANCH_ALWAYS, |e| + 1).cells + e;
      LaidBoth(cfg, t, e1);
      Skips(cfg, t, e1, |t|, BRANCH_ALWAYS, |e| + 1);
      LaidBranch(cfg, BRANCH_NE, |t| + 2, t + e1);
      LaidBoth(cfg, c, BranchCode(cfg, BRANCH_NE, |t| + 2).cells + (t + e1));
      assert StmtCode(cfg, IfStmt(cond, thn, els)).cells == c + (BranchCode(cfg, BRANCH_NE, |t| + 2).cells + (t + e1));
    }
  }

  lemma LaidStmts(cfg: Config, ss: seq<Stmt>)
    requires AcceptsStmts(cfg, ss) && FitsStmts(cfg, ss)
    ensures Laid(cfg, StmtsCode(cfg, ss).cells)
    decreases ss, 0
  {
    hide Laid, StmtCode, FitsStmt, AcceptsStmt;
    if ss == [] {
      LaidNothing(cfg);
    } else {
      LaidStmts(cfg, ss[..|ss| - 1]);
      LaidStmt(cfg, ss[|ss| - 1]);
      LaidBoth(cfg, StmtsCode(cfg, ss[..|ss| - 1]).cells, StmtCode(cfg, ss[|ss| - 1]).cells);
    }
  }

  /** The code of a target consists of whole instructions, and every branch in it goes
      forward to the beginning of one. */
  lemma TargetLaid(cfg: Config, ss: seq<Stmt>)
    requires AcceptsStmts(cfg, ss) && FitsStmts(cfg, ss)
    ensures Laid(cfg, TargetCode(cfg, ss).cells)
    ensures forall pc | 0 <= pc < |TargetCode(cfg, ss).cells| && Walks(cfg, TargetCode(cfg, ss).cells, 0, pc) ::
              var i := TargetCode(cfg, ss).cells[pc];
              && i.Word?
              && (Decode(i.bits).Branch? ==>
                    var d := Decode(i.bits).diff;
                    0 < d < |TargetCode(cfg, ss).cells| - pc && Walks(cfg, TargetCode(cfg, ss).cells, 0, pc + d))
  {
    hide Laid, StmtsCode, FitsStmts, AcceptsStmts, IntWord, Walks, Decode;
    var a, halt := StmtsCode(cfg, ss).cells, One(IntWord(cfg.width, OP_HALT, 0)).cells;
    LaidStmts(cfg, ss);
    LaidIntWord(cfg, OP_HALT, 0);
    LaidBoth(cfg, a, halt);
    forall pc | 0 <= pc < |a + halt| && Walks(cfg, a + halt, 0, pc)
      ensures var i := (a + halt)[pc];
              && i.Word?
              && (Decode(i.bits).Branch? ==>
                    var d := Decode(i.bits).diff; 0 < d < |a + halt| - pc && Walks(cfg, a + halt, 0, pc + d))
    {
      LaidAt(cfg, a + halt, pc);
      assert (a + halt)[0..0 + |a|] == a;
      if Decode((a + halt)[pc].bits).Branch? {
        BranchInside(cfg, a, halt, pc);
      }
    }
  }

  /** What is laid out is known at the beginning of each instruction. */
  lemma LaidAt(cfg: Config, code: seq<Cell>, pc: nat)
    requires Laid(cfg, code) && pc < |code| && Walks(cfg, code, 0, pc)
    ensures code[pc].Word? && BranchFits(cfg, code, pc)
    ensures Walks(cfg, code, pc, |code|) && pc + Length(cfg, Decode(code[pc].bits)) <= |code|
    ensures Walks(cfg, code, 0, pc + Length(cfg, Decode(code[pc].bits)))
  {
    hide Decode, Length;
    WalksBetween(cfg, code, 0, pc, |code|);
    var n := Length(cfg, Decode(code[pc].bits));
    WalksUp(cfg, code, pc + n, |code|);
    assert Walks(cfg, code, pc + n, pc + n);
    assert Walks(cfg, code, pc, pc + n);
    WalksOn(cfg, code, 0, pc, pc + n);
  }

  /** A branch among the statements stays before the end of HALT. */
  lemma BranchInside(cfg: Config, a: seq<Cell>, halt: seq<Cell>, pc: nat)
    requires Laid(cfg, a) && halt == One(IntWord(cfg.width, OP_HALT, 0)).cells
    requires pc < |a + halt| && Walks(cfg, a + halt, 0, pc)
    requires (a + halt)[pc].Word? && Decode((a + halt)[pc].bits).Branch?
    ensures var d := Decode((a + halt)[pc].bits).diff;
            0 < d < |a + halt| - pc && Walks(cfg, a + halt, 0, pc + d)
  {
    hide Laid, IntWord, Walks, Decode, Length;
    var code := a + halt;
    assert code[0..0 + |a|] == a;
    IntWordDecodes(cfg.width, OP_HALT, 0);
    HaltIs(cfg);
    assert pc < |a| && code[pc] == a[pc];
    WalksWithin(cfg, code, 0, a, 0, pc);
    LaidAt(cfg, a, pc);
    var d := Decode(a[pc].bits).diff;
    WalksWithin(cfg, code, 0, a, pc, pc + d);
    WalksOn(cfg, code, 0, pc, pc + d);
  }

  lemma HaltIs(cfg: Config)
    ensures Decode(IntWord(cfg.width, OP_HALT, 0)) == Halt
  {
    hide IntWord, Decode;
    IntWordDecodes(cfg.width, OP_HALT, 0);
  }

  // ------------------------------------------------------------------
  // Runs
  // ------------------------------------------------------------------

  /** The instruction about to be run fails a check on the size of the code. */
  predicate TripsSize(cfg: Config, code: seq<Cell>, s: State)
    requires s.pc < |code| && code[s.pc].Word?
  {
    match Decode(code[s.pc].bits)
    case PushInt(_) => 0 <= s.nsize - cfg.width.Bytes() < 4
    case PushDouble => 0 <= s.nsize - cfg.width.Bytes() < 8
    case PushString(len) => 0 <= s.nsize - cfg.width.Bytes() < len
    case PushGlobal(len) => 0 <= s.nsize - cfg.width.Bytes() < len
    case Branch(_, diff) => diff > 0 && s.nsize < diff * cfg.width.Bytes()
    case _ => false
  }

  /** The state after `n` instructions. */
  function After(cfg: Config, code: seq<Cell>, s: State, n: nat): Option<State> {
    if n == 0 then Some(s)
    else match After(cfg, code, s, n - 1)
         case None => None
         case Some(s1) =>
           if s1.ninstr <= 0 || s1.pc >= |code| then None
           else match Step(cfg, code, s1)
                case Next(s2) => Some(s2)
                case _ => None
  }

  /** At the beginning of an instruction, with nsize promising no less than is there. */
  ghost predicate InPlace(cfg: Config, code: seq<Cell>, s: State) {
    s.pc < |code| && Walks(cfg, code, 0, s.pc) && s.nsize >= BytesFrom(cfg, code, s.pc)
  }

  /** The last word is HALT, and no other instruction ends the code. */
  ghost predicate Halts(cfg: Config, code: seq<Cell>) {
    && Laid(cfg, code) && code != [] && code[|code| - 1] == Word(IntWord(cfg.width, OP_HALT, 0))
    && Walks(cfg, code, 0, |code| - 1)
    && forall pc | 0 <= pc < |code| && Walks(cfg, code, 0, pc) && code[pc].Word? && Decode(code[pc].bits).Branch? ::
         pc + Decode(code[pc].bits).diff < |code|
  }

  lemma TargetHalts(cfg: Config, ss: seq<Stmt>)
    requires AcceptsStmts(cfg, ss) && FitsStmts(cfg, ss)
    ensures Halts(cfg, TargetCode(cfg, ss).cells)
  {
    hide Laid, StmtsCode, FitsStmts, AcceptsStmts, IntWord, Walks, Decode;
    TargetLaid(cfg, ss);
    LaidStmts(cfg, ss);
    var a, code := StmtsCode(cfg, ss).cells, TargetCode(cfg, ss).cells;
    LaidWhole(cfg, a);
    assert code[0..0 + |a|] == a;
    WalksWithin(cfg, code, 0, a, 0, |a|);
  }

  /** Before HALT there is always another word. */
  lemma NotLast(cfg: Config, code: seq<Cell>, pc: nat)
    requires Halts(cfg, code) && pc < |code| && Walks(cfg, code, 0, pc)
    ensures code[pc].Word? && Walks(cfg, code, 0, pc + Length(cfg, Decode(code[pc].bits)))
    ensures Decode(code[pc].bits) != Halt ==> pc + Length(cfg, Decode(code[pc].bits)) < |code|
    ensures Decode(code[pc].bits).Branch? ==>
              var d := Decode(code[pc].bits).diff; d > 0 && pc + d < |code| && Walks(cfg, code, 0, pc + d)
  {
    hide Laid, IntWord, Walks, Decode, Length;
    LaidAt(cfg, code, pc);
    HaltIs(cfg);
    if pc < |code| - 1 {
      WalksBetween(cfg, code, 0, pc, |code| - 1);
      StepsWithin(cfg, code, pc, |code| - 1);
    }
    if Decode(code[pc].bits).Branch? {
      WalksOn(cfg, code, 0, pc, pc + Decode(code[pc].bits).diff);
    }
  }

  lemma StepsWithin(cfg: Config, code: seq<Cell>, i: nat, j: nat)
    requires Walks(cfg, code, i, j) && i < j
    ensures i < |code| && code[i].Word? && i + Length(cfg, Decode(code[i].bits)) <= j
  {
    WalksUp(cfg, code, i + Length(cfg, Decode(code[i].bits)), j);
  }

  /** In place, no check of the size fails. */
  lemma InPlaceFits(cfg: Config, code: seq<Cell>, s: State)
    requires Halts(cfg, code) && InPlace(cfg, code, s)
    ensures code[s.pc].Word? && !TripsSize(cfg, code, s)
  {
    hide Halts, Walks, Decode, BytesFrom;
    NotLast(cfg, code, s.pc);
    var i := Decode(code[s.pc].bits);
    if i != Halt {
      BytesLeft(cfg, code, s, Length(cfg, i));
    }
    match i
    case PushString(len) => CellsHold(cfg, len);
    case PushGlobal(len) => CellsHold(cfg, len);
    case PushDouble => CellsHold(cfg, 8);
    case Branch(_, diff) => BytesLeft(cfg, code, s, diff);
    case _ =>
  }

  lemma BytesLeft(cfg: Config, code: seq<Cell>, s: State, n: nat)
    requires s.pc + n < |code| && s.nsize >= BytesFrom(cfg, code, s.pc)
    ensures s.nsize >= (n + 1) * cfg.width.Bytes() == n * cfg.width.Bytes() + cfg.width.Bytes()
    ensures s.nsize >= n * cfg.width.Bytes()
  {
    assert (|code| - s.pc) * cfg.width.Bytes() >= (n + 1) * cfg.width.Bytes();
  }

  lemma CellsHold(cfg: Config, nbyte: nat)
    ensures cfg.width.Cells(nbyte) * cfg.width.Bytes() >= nbyte
    ensures (1 + cfg.width.Cells(nbyte)) * cfg.width.Bytes()
         == cfg.width.Bytes() + cfg.width.Cells(nbyte) * cfg.width.Bytes()
  {
  }

  /** One more instruction stays in place. */
  lemma InPlaceNext(cfg: Config, code: seq<Cell>, s: State, s1: State)
    requires Halts(cfg, code) && InPlace(cfg, code, s) && Step(cfg, code, s) == Next(s1)
    ensures InPlace(cfg, code, s1)
  {
    hide Halts, Walks, Decode, BytesFrom, StepInstr;
    NotLast(cfg, code, s.pc);
    var i := Decode(code[s.pc].bits);
    StepLength(cfg, code, s, s1, i);
    if s1.pc == s.pc + Length(cfg, i) {
      Ahead(cfg, code, s.pc, Length(cfg, i));
    } else {
      Ahead(cfg, code, s.pc, i.diff);
    }
  }

  predicate Moves(cfg: Config, s: State, o: Outcome, n: nat) {
    o.Next? ==> o.s.pc == s.pc + n && o.s.nsize >= s.nsize - n * cfg.width.Bytes()
  }

  lemma PushLength(cfg: Config, code: seq<Cell>, s: State, i: Instr)
    requires s.pc < |code|
    ensures Moves(cfg, s, StepPush(cfg, code, s, i), Length(cfg, i))
  {
    hide Lookup, BindLocals, PushedInt;
  }

  lemma FactsLength(cfg: Config, s: State, n: int, partial: bool)
    ensures Moves(cfg, s, StepFilter(cfg, s, n), 1) && Moves(cfg, s, StepUpdate(cfg, s, n, partial), 1)
    ensures Moves(cfg, s, StepReplace(cfg, s, n), 1) && Moves(cfg, s, StepSet(cfg, s), 1)
  {
    hide FilterLoop, PopNames, PeekGlobal, UpdateAll, ReplaceAll, ReplaceName, SetGlobal;
  }

  lemma FieldLength(cfg: Config, s: State, i: Instr, n: int)
    ensures Moves(cfg, s, StepSetField(cfg, s), 1) && Moves(cfg, s, StepGetField(cfg, s), 1)
    ensures Moves(cfg, s, StepPop(cfg, s, i), 1) && Moves(cfg, s, StepCall(cfg, s, n), 1)
  {
    hide SetFieldOf, GetFieldOf, PopAny, Grow, DanglingAmong;
  }

  /** A step moves the program counter past its instruction and takes no more from nsize,
      or to where a branch leads and takes nothing. */
  lemma StepLength(cfg: Config, code: seq<Cell>, s: State, s1: State, i: Instr)
    requires s.pc < |code| && StepInstr(cfg, code, s, i) == Next(s1)
    ensures i != Halt
    ensures (s1.pc == s.pc + Length(cfg, i) && s1.nsize >= s.nsize - Length(cfg, i) * cfg.width.Bytes())
            || (i.Branch? && s1.pc == s.pc + i.diff && s1.nsize == s.nsize)
  {
    hide StepPush, StepPop, StepFilter, StepUpdate, StepReplace, StepSet, StepSetField, StepGetField, StepCall, Truth,
         Compare, Negate, ScopeGet;
    PushLength(cfg, code, s, i);
    match i
    case Filter(n) => FactsLength(cfg, s, n, false);
    case Update(n, partial) => FactsLength(cfg, s, n, partial);
    case Replace(n) => FactsLength(cfg, s, n, false);
    case SetVar => FactsLength(cfg, s, 0, false);
    case Call(n) => FieldLength(cfg, s, i, n);
    case _ => FieldLength(cfg, s, i, 0);
  }

  /** No state reached by running a target fails a check on the size of its code. */
  lemma {:induction false} NeverTrips(cfg: Config, ss: seq<Stmt>, m: Memory, n: nat)
    requires AcceptsStmts(cfg, ss) && FitsStmts(cfg, ss)
    ensures var c := TargetCode(cfg, ss);
            var r := After(cfg, c.cells, State(0, c.n, |c.cells| * cfg.width.Bytes(), m), n);
            r.Some? ==> InPlace(cfg, c.cells, r.value) && c.cells[r.value.pc].Word? && !TripsSize(cfg, c.cells, r.value)
  {
    hide TargetCode, AcceptsStmts, FitsStmts, Halts, Walks, Decode, Step, BytesFrom;
    var c := TargetCode(cfg, ss);
    var s0 := State(0, c.n, |c.cells| * cfg.width.Bytes(), m);
    TargetHalts(cfg, ss);
    if n == 0 {
      Begins(cfg, c.cells, s0);
      InPlaceFits(cfg, c.cells, s0);
    } else {
      NeverTrips(cfg, ss, m, n - 1);
      var r0, r := After(cfg, c.cells, s0, n - 1), After(cfg, c.cells, s0, n);
      if r.Some? {
        InPlaceNext(cfg, c.cells, r0.value, r.value);
        InPlaceFits(cfg, c.cells, r.value);
      }
    }
  }

  lemma Begins(cfg: Config, code: seq<Cell>, s: State)
    requires Halts(cfg, code) && s.pc == 0 && s.nsize == |code| * cfg.width.Bytes()
    ensures InPlace(cfg, code, s)
  {
    hide Laid, Decode, IntWord;
  }
}
