/** The compiler (src/compiler.c:73-601) as it works: it appends instructions to a
    chunk, remembers where branches are, and patches them once it knows how far
    they go.  Each method is proved to succeed exactly on what `Emit` says the
    compiler accepts, and then to have appended exactly the code `Emit` says. */
module Compiler {
  import opened Words
  import opened Facts
  import opened Machine
  import opened Lang
  import opened Emit

  /** vm_chunk_t: the words emitted, and the bytes used and left. */
  class Chunk {
    const width: Width
    var cells: seq<Cell>
    var ninstr: nat
    var nsize: nat
    var nleft: nat

    ghost predicate Valid()
      reads this
    {
      nsize == |cells| * width.Bytes()
    }

    /** vm_chunk_new. */
    constructor (w: Width, n: nat)
      ensures Valid() && width == w && cells == [] && ninstr == 0
    {
      width, cells, ninstr, nsize, nleft := w, [], 0, 0, n * w.Bytes();
    }

    /** vm_chunk_grow: makes room for `n` bytes. */
    method Grow(n: nat)
      requires Valid()
      modifies this`nleft
      ensures nleft >= n && nleft >= old(nleft)
    {
      if n > nleft {
        nleft := n;
      }
    }

    /** vm_chunk_add: one instruction. */
    method Add(c: Code)
      requires Valid() && c.n == 1
      modifies this
      ensures Valid()
      ensures cells == old(cells) + c.cells && ninstr == old(ninstr) + 1
    {
      var size := |c.cells| * width.Bytes();
      Grow(size);
      cells := cells + c.cells;
      ninstr, nsize, nleft := ninstr + 1, nsize + size, nleft - size;
    }

    /** VM_CHUNK_OFFSET: the offset of the next instruction, in words. */
    method Offset() returns (offs: nat)
      requires Valid()
      ensures offs == |cells|
    {
      offs := nsize / width.Bytes();
    }

    /** VM_BRANCH_PATCH. */
    method Patch(offs: nat, kind: nat, diff: int)
      requires Valid() && offs < |cells|
      modifies this`cells
      ensures Valid() && cells == old(cells)[offs := Word(BranchWord(width, kind, diff))]
    {
      cells := cells[offs := Word(BranchWord(width, kind, diff))];
    }
  }

  /** The code compiled since `before`, for a method that succeeded. */
  ghost predicate Appended(cells: seq<Cell>, n: nat, before: seq<Cell>, n0: nat, c: Code) {
    cells == before + c.cells && n == n0 + c.n
  }

  lemma AppendedThen(cells: seq<Cell>, n: nat, mid: seq<Cell>, n1: nat, before: seq<Cell>, n0: nat, c1: Code, c2: Code)
    requires Appended(mid, n1, before, n0, c1) && Appended(cells, n, mid, n1, c2)
    ensures Appended(cells, n, before, n0, c1.Then(c2))
  {
    assert before + c1.cells + c2.cells == before + (c1.cells + c2.cells);
  }

  lemma Patched(a: seq<Cell>, x: Cell, b: seq<Cell>, y: Cell)
    ensures (a + [x] + b)[|a| := y] == a + [y] + b
  {
  }

  /** vm_method_lookup and vm_method_id. */
  method LookupMethod(cfg: Config, name: string) returns (id: int)
    ensures id == MethodId(cfg.methods, name)
  {
    var i := 0;
    while i < |cfg.methods|
      invariant 0 <= i <= |cfg.methods|
      invariant name !in cfg.methods[..i]
    {
      if cfg.methods[i] == name {
        FirstMethod(cfg.methods, name, i);
        return i;
      }
      i := i + 1;
    }
    assert cfg.methods[..i] == cfg.methods;
    return -1;
  }

  lemma {:induction false} FirstMethod(methods: seq<string>, name: string, i: nat)
    requires i < |methods| && methods[i] == name && name !in methods[..i]
    ensures MethodId(methods, name) == i
  {
    var init := methods[..|methods| - 1];
    if i < |init| {
      assert init[..i] == methods[..i];
      FirstMethod(init, name, i);
    } else {
      assert init == methods[..i];
    }
  }

  // ------------------------------------------------------------------
  // Values and selectors
  // ------------------------------------------------------------------

  /** PUSH_VALUE. */
  method CompileOperand(cfg: Config, o: Operand, code: Chunk)
    requires code.Valid() && code.width == cfg.width
    modifies code
    ensures code.Valid()
    ensures Appended(code.cells, code.ninstr, old(code.cells), old(code.ninstr), OperandCode(cfg, o))
  {
    hide PushIntCode, PushTextCode, PushDblCode;
    PushesAreOne(cfg);
    match o {
      case OpInt(i) => code.Add(PushIntCode(cfg, i));
      case OpDbl(d) => code.Add(PushDblCode(cfg, d));
      case OpStr(s) => code.Add(PushStrCode(cfg, s));
      case OpGlobal(name) => code.Add(PushGlobalCode(cfg, name));
      case OpLocal(idx) => code.Add(GetLocalCode(cfg, idx));
    }
  }

  lemma PushesAreOne(cfg: Config)
    ensures forall v :: PushIntCode(cfg, v).n == 1
    ensures forall tag, s :: PushTextCode(cfg, tag, s).n == 1
    ensures forall d :: PushDblCode(cfg, d).n == 1
  {
  }

  /** The selector loop of a variable reference, which only takes selectors with
      an operand, and of an lvalue, which passes over the others. */
  method CompileTests(cfg: Config, sels: seq<Selector>, strict: bool, code: Chunk) returns (ok: bool, nfield: nat)
    requires code.Valid() && code.width == cfg.width
    modifies code
    ensures code.Valid() && old(code.cells) <= code.cells
    ensures ok <==> strict ==> forall i | 0 <= i < |sels| :: sels[i].operand.Some?
    ensures ok ==> nfield == CountTests(sels)
    ensures ok ==> Appended(code.cells, code.ninstr, old(code.cells), old(code.ninstr), TestsCode(cfg, sels))
  {
    hide PushIntCode, PushTextCode, OperandCode;
    PushesAreOne(cfg);
    nfield := 0;
    var i := 0;
    while i < |sels|
      invariant 0 <= i <= |sels|
      invariant code.Valid() && nfield == CountTests(sels[..i])
      invariant strict ==> forall k | 0 <= k < i :: sels[k].operand.Some?
      invariant Appended(code.cells, code.ninstr, old(code.cells), old(code.ninstr), TestsCode(cfg, sels[..i]))
    {
      assert sels[..i + 1][..i] == sels[..i];
      var sel := sels[i];
      match sel.operand {
        case None =>
          if strict {
            return false, nfield;
          }
        case Some(o) =>
          ghost var c0, n0 := code.cells, code.ninstr;
          var op := if sel.neq then RELOP_NE else RELOP_EQ;
          code.Add(PushIntCode(cfg, op));
          ghost var c1, n1 := code.cells, code.ninstr;
          CompileOperand(cfg, o, code);
          AppendedThen(code.cells, code.ninstr, c1, n1, c0, n0, PushIntCode(cfg, op), OperandCode(cfg, o));
          ghost var c2, n2 := code.cells, code.ninstr;
          code.Add(PushStrCode(cfg, sel.field));
          AppendedThen(code.cells, code.ninstr, c2, n2, c0, n0, PushIntCode(cfg, op).Then(OperandCode(cfg, o)),
                       PushStrCode(cfg, sel.field));
          AppendedThen(code.cells, code.ninstr, c0, n0, old(code.cells), old(code.ninstr), TestsCode(cfg, sels[..i]),
                       TestCode(cfg, sel.field, sel.neq, o));
          nfield := nfield + 1;
      }
      i := i + 1;
    }
    assert sels[..i] == sels;
    ok := true;
  }

  /** PUSH GLOBAL, the selectors, and FILTER if there are any. */
  method CompileFiltered(cfg: Config, name: string, sels: seq<Selector>, strict: bool, code: Chunk) returns (ok: bool)
    requires code.Valid() && code.width == cfg.width
    modifies code
    ensures code.Valid() && old(code.cells) <= code.cells
    ensures ok <==> strict ==> forall i | 0 <= i < |sels| :: sels[i].operand.Some?
    ensures ok ==> Appended(code.cells, code.ninstr, old(code.cells), old(code.ninstr), FilteredCode(cfg, name, sels))
  {
    hide PushTextCode, TestsCode, IntWord;
    PushesAreOne(cfg);
    code.Add(PushGlobalCode(cfg, name));
    ghost var c1, n1 := code.cells, code.ninstr;
    var nfield;
    ok, nfield := CompileTests(cfg, sels, strict, code);
    if !ok {
      return;
    }
    AppendedThen(code.cells, code.ninstr, c1, n1, old(code.cells), old(code.ninstr), PushGlobalCode(cfg, name),
                 TestsCode(cfg, sels));
    ghost var c2, n2 := code.cells, code.ninstr;
    if nfield > 0 {
      var filter := One(IntWord(cfg.width, OP_FILTER, nfield));
      code.Add(filter);
      AppendedThen(code.cells, code.ninstr, c2, n2, old(code.cells), old(code.ninstr),
                   PushGlobalCode(cfg, name).Then(TestsCode(cfg, sels)), filter);
    }
  }

  /** compile_expr_varref. */
  method CompileRef(cfg: Config, r: VarRef, code: Chunk) returns (ok: bool)
    requires code.Valid() && code.width == cfg.width
    modifies code
    ensures code.Valid() && old(code.cells) <= code.cells
    ensures ok <==> AcceptsRef(r)
    ensures ok ==> Appended(code.cells, code.ninstr, old(code.cells), old(code.ninstr), RefCode(cfg, r))
  {
    hide PushTextCode, FilteredCode, IntWord;
    PushesAreOne(cfg);
    match r.variable {
      case Local(idx) =>
        if r.selectors != [] || r.field.Some? {
          return false;
        }
        code.Add(GetLocalCode(cfg, idx));
        return true;
      case GlobalVar(name) =>
        ok := CompileFiltered(cfg, name, r.selectors, true, code);
        if !ok || r.field.None? {
          return;
        }
        ghost var c1, n1 := code.cells, code.ninstr;
        var field, get := PushStrCode(cfg, r.field.value), One(IntWord(cfg.width, OP_GET, GET_FIELD));
        code.Add(field);
        AppendedThen(code.cells, code.ninstr, c1, n1, old(code.cells), old(code.ninstr),
                     FilteredCode(cfg, name, r.selectors), field);
        ghost var c2, n2 := code.cells, code.ninstr;
        code.Add(get);
        AppendedThen(code.cells, code.ninstr, c2, n2, old(code.cells), old(code.ninstr),
                     FilteredCode(cfg, name, r.selectors).Then(field), get);
    }
  }

  // ------------------------------------------------------------------
  // Calls
  // ------------------------------------------------------------------

  /** The loop over the named locals of a call. */
  method CompileBindings(cfg: Config, locals: seq<Binding>, code: Chunk)
    requires code.Valid() && code.width == cfg.width
    modifies code
    ensures code.Valid()
    ensures Appended(code.cells, code.ninstr, old(code.cells), old(code.ninstr), BindingsCode(cfg, locals))
  {
    hide PushIntCode, OperandCode;
    PushesAreOne(cfg);
    var i := 0;
    while i < |locals|
      invariant 0 <= i <= |locals|
      invariant code.Valid()
      invariant Appended(code.cells, code.ninstr, old(code.cells), old(code.ninstr), BindingsCode(cfg, locals[..i]))
    {
      assert locals[..i + 1][..i] == locals[..i];
      ghost var c0, n0, before := code.cells, code.ninstr, BindingsCode(cfg, locals[..i]);
      CompileOperand(cfg, locals[i].operand, code);
      var o := OperandCode(cfg, locals[i].operand);
      AppendedThen(code.cells, code.ninstr, c0, n0, old(code.cells), old(code.ninstr), before, o);
      ghost var c1, n1 := code.cells, code.ninstr;
      code.Add(PushIntCode(cfg, locals[i].idx));
      AppendedThen(code.cells, code.ninstr, c1, n1, old(code.cells), old(code.ninstr), before.Then(o),
                   PushIntCode(cfg, locals[i].idx));
      i := i + 1;
    }
    assert locals[..i] == locals;
  }

  /** The rest of compile_call, once the arguments are compiled. */
  method CompileCallTail(cfg: Config, id: int, name: string, narg: nat, locals: seq<Binding>, code: Chunk)
    requires code.Valid() && code.width == cfg.width && id == MethodId(cfg.methods, name)
    modifies code
    ensures code.Valid()
    ensures Appended(code.cells, code.ninstr, old(code.cells), old(code.ninstr), CallTail(cfg, name, narg, locals))
  {
    hide PushIntCode, OperandCode, IntWord, PushWord, MethodId, BindingsCode;
    PushesAreOne(cfg);
    ghost var c0, n0 := code.cells, code.ninstr;
    ghost var enter := NOTHING;
    if |locals| > 0 {
      CompileBindings(cfg, locals, code);
      ghost var c, n := code.cells, code.ninstr;
      var push := One(PushWord(cfg.width, TYPE_LOCAL, |locals|));
      code.Add(push);
      AppendedThen(code.cells, code.ninstr, c, n, c0, n0, BindingsCode(cfg, locals), push);
      enter := BindingsCode(cfg, locals).Then(push);
    }
    ghost var c1, n1 := code.cells, code.ninstr;
    var push, call := PushIntCode(cfg, id), One(IntWord(cfg.width, OP_CALL, narg));
    code.Add(push);
    ghost var c2, n2 := code.cells, code.ninstr;
    code.Add(call);
    AppendedThen(code.cells, code.ninstr, c2, n2, c1, n1, push, call);
    AppendedThen(code.cells, code.ninstr, c1, n1, c0, n0, enter, push.Then(call));
    ghost var c3, n3 := code.cells, code.ninstr;
    if |locals| > 0 {
      var pop := One(IntWord(cfg.width, OP_POP, 0));
      code.Add(pop);
      AppendedThen(code.cells, code.ninstr, c3, n3, c0, n0, enter.Then(push.Then(call)), pop);
    }
  }

  /** The loop over the arguments of a call. */
  method CompileArgs(cfg: Config, args: seq<Expr>, code: Chunk) returns (ok: bool)
    requires code.Valid() && code.width == cfg.width
    modifies code
    ensures code.Valid() && old(code.cells) <= code.cells
    ensures ok <==> forall i | 0 <= i < |args| :: AcceptsExpr(cfg, args[i])
    ensures ok ==> Appended(code.cells, code.ninstr, old(code.cells), old(code.ninstr), ArgsCode(cfg, args))
    decreases args, 0
  {
    hide AcceptsExpr, ExprCode;
    var i := 0;
    while i < |args|
      invariant 0 <= i <= |args|
      invariant code.Valid()
      invariant forall k | 0 <= k < i :: AcceptsExpr(cfg, args[k])
      invariant Appended(code.cells, code.ninstr, old(code.cells), old(code.ninstr), ArgsCode(cfg, args[..i]))
    {
      assert args[..i + 1][..i] == args[..i];
      ghost var c, n := code.cells, code.ninstr;
      ok := CompileExpr(cfg, args[i], code);
      if !ok {
        return;
      }
      AppendedThen(code.cells, code.ninstr, c, n, old(code.cells), old(code.ninstr), ArgsCode(cfg, args[..i]),
                   ExprCode(cfg, args[i]));
      i := i + 1;
    }
    assert args[..i] == args;
    ok := true;
  }

  /** compile_call. */
  method CompileCall(cfg: Config, name: string, args: seq<Expr>, locals: seq<Binding>, code: Chunk) returns (ok: bool)
    requires code.Valid() && code.width == cfg.width
    modifies code
    ensures code.Valid() && old(code.cells) <= code.cells
    ensures ok <==> AcceptsCall(cfg, name, args)
    ensures ok ==>
              Appended(code.cells, code.ninstr, old(code.cells), old(code.ninstr), CallCode(cfg, name, args, locals))
    decreases args, 1
  {
    hide AcceptsExpr, ExprCode, ArgsCode, CallTail;
    var id := LookupMethod(cfg, name);
    if id < 0 {
      return false;
    }
    ok := CompileArgs(cfg, args, code);
    if ok {
      ghost var c, n := code.cells, code.ninstr;
      CompileCallTail(cfg, id, name, |args|, locals, code);
      AppendedThen(code.cells, code.ninstr, c, n, old(code.cells), old(code.ninstr), ArgsCode(cfg, args),
                   CallTail(cfg, name, |args|, locals));
    }
  }

  // ------------------------------------------------------------------
  // Expressions
  // ------------------------------------------------------------------

  /** compile_expr_or (branches taken on true, ending in a push of 1) and
      compile_expr_and (on false, ending in a push of 0). */
  method CompileShortCircuit(cfg: Config, e: Expr, a: Expr, b: Expr, kind: nat, last: int, code: Chunk)
    returns (ok: bool)
    requires code.Valid() && code.width == cfg.width
    requires a < e && b < e
    requires last == 0 || last == 1
    modifies code
    ensures code.Valid() && old(code.cells) <= code.cells
    ensures ok <==> AcceptsExpr(cfg, a) && AcceptsExpr(cfg, b)
    ensures ok ==> Appended(code.cells, code.ninstr, old(code.cells), old(code.ninstr),
                            ShortCircuit(cfg, ExprCode(cfg, a), ExprCode(cfg, b), kind, last))
    decreases e, 1
  {
    hide AcceptsExpr, ExprCode, BranchWord, PushIntCode, ShortCircuit;
    BitIsOneWord(cfg);
    ok := CompileExpr(cfg, a, code);
    if !ok {
      return;
    }
    var br1 := code.Offset();
    code.Add(BranchCode(cfg, kind, 0));
    ok := CompileExpr(cfg, b, code);
    if !ok {
      return;
    }
    FinishShort(cfg, br1, kind, last, code, old(code.cells), ExprCode(cfg, a), ExprCode(cfg, b));
  }

  /** The end of a short-circuit evaluation: the results, and the branches to them. */
  method FinishShort(cfg: Config, br1: nat, kind: nat, last: int, code: Chunk, ghost before: seq<Cell>, ghost a: Code,
                     ghost b: Code)
    requires code.Valid() && code.width == cfg.width && (last == 0 || last == 1)
    requires br1 == |before| + |a.cells|
    requires code.cells == before + a.cells + [Word(BranchWord(cfg.width, kind, 0))] + b.cells
    modifies code
    ensures code.Valid() && code.cells == before + ShortCircuit(cfg, a, b, kind, last).cells
    ensures code.ninstr + a.n + 1 + b.n == old(code.ninstr) + ShortCircuit(cfg, a, b, kind, last).n
  {
    hide BranchWord, PushIntCode, ShortCircuit;
    BitIsOneWord(cfg);
    var br2 := code.Offset();
    code.Add(BranchCode(cfg, kind, 0));
    code.Add(PushIntCode(cfg, 1 - last));
    var br3 := code.Offset();
    code.Add(BranchCode(cfg, BRANCH_ALWAYS, 2));
    code.Add(PushIntCode(cfg, last));
    ghost var emitted := code.cells;
    code.Patch(br1, kind, br3 - br1 + 1);
    code.Patch(br2, kind, br3 - br2 + 1);
    ShortPatched(cfg, before, a, b, kind, last, emitted);
  }

  /** Patching the two branches of a short-circuit evaluation. */
  lemma ShortPatched(cfg: Config, before: seq<Cell>, a: Code, b: Code, kind: nat, last: int, emitted: seq<Cell>)
    requires var w0 := [Word(BranchWord(cfg.width, kind, 0))];
             emitted == before + a.cells + w0 + b.cells + w0 + PushIntCode(cfg, 1 - last).cells
                        + [Word(BranchWord(cfg.width, BRANCH_ALWAYS, 2))] + PushIntCode(cfg, last).cells
    ensures var br1 := |before| + |a.cells|;
            var br2 := br1 + 1 + |b.cells|;
            && br2 < |emitted|
            && emitted[br1 := Word(BranchWord(cfg.width, kind, |b.cells| + 4))]
                      [br2 := Word(BranchWord(cfg.width, kind, 3))]
               == before + ShortCircuit(cfg, a, b, kind, last).cells
    ensures ShortCircuit(cfg, a, b, kind, last).n
         == a.n + 1 + b.n + 1 + PushIntCode(cfg, 1 - last).n + 1 + PushIntCode(cfg, last).n
  {
    hide BranchWord, PushIntCode;
    var w0, w1, w2 := Word(BranchWord(cfg.width, kind, 0)), Word(BranchWord(cfg.width, kind, |b.cells| + 4)),
                      Word(BranchWord(cfg.width, kind, 3));
    var tail := PushIntCode(cfg, 1 - last).cells + [Word(BranchWord(cfg.width, BRANCH_ALWAYS, 2))]
                + PushIntCode(cfg, last).cells;
    assert before + ShortCircuit(cfg, a, b, kind, last).cells == before + a.cells + [w1] + b.cells + [w2] + tail;
    PatchedTwice(before + a.cells, w0, b.cells, w0, tail, w1, w2);
    assert emitted == before + a.cells + [w0] + b.cells + [w0] + tail;
  }

  lemma PatchedTwice(a: seq<Cell>, x: Cell, b: seq<Cell>, y: Cell, c: seq<Cell>, x1: Cell, y1: Cell)
    ensures (a + [x] + b + [y] + c)[|a| := x1][|a| + 1 + |b| := y1] == a + [x1] + b + [y1] + c
  {
  }

  lemma BitIsOneWord(cfg: Config)
    ensures |PushIntCode(cfg, 0).cells| == |PushIntCode(cfg, 1).cells| == 1
    ensures PushIntCode(cfg, 0).n == PushIntCode(cfg, 1).n == 1
  {
  }

  /** compile_expr and compile_expr_relop. */
  method CompileExpr(cfg: Config, e: Expr, code: Chunk) returns (ok: bool)
    requires code.Valid() && code.width == cfg.width
    modifies code
    ensures code.Valid() && old(code.cells) <= code.cells
    ensures ok <==> AcceptsExpr(cfg, e)
    ensures ok ==> Appended(code.cells, code.ninstr, old(code.cells), old(code.ninstr), ExprCode(cfg, e))
    decreases e, 2
  {
    hide PushIntCode, PushTextCode, PushDblCode, IntWord, ShortCircuit, RefCode, CallCode, AcceptsRef, AcceptsCall;
    PushesAreOne(cfg);
    match e {
      case ConstInt(i) => code.Add(PushIntCode(cfg, i));
        return true;
      case ConstDbl(d) => code.Add(PushDblCode(cfg, d));
        return true;
      case ConstStr(s) => code.Add(PushStrCode(cfg, s));
        return true;
      case Ref(r) => ok := CompileRef(cfg, r, code);
      case Or(a, b) => ok := CompileShortCircuit(cfg, e, a, b, BRANCH_EQ, 1, code);
      case And(a, b) => ok := CompileShortCircuit(cfg, e, a, b, BRANCH_NE, 0, code);
      case CallExpr(name, args, locals) => ok := CompileCall(cfg, name, args, locals, code);
      case Not(a) =>
        ok := CompileExpr(cfg, a, code);
        if ok {
          ghost var c, n := code.cells, code.ninstr;
          var cmp := One(IntWord(cfg.width, OP_CMP, RELOP_NOT));
          code.Add(cmp);
          AppendedThen(code.cells, code.ninstr, c, n, old(code.cells), old(code.ninstr), ExprCode(cfg, a), cmp);
        }
      case Rel(op, a, b) =>
        // the second operand is evaluated first
        ok := CompileExpr(cfg, b, code);
        if ok {
          ghost var c1, n1 := code.cells, code.ninstr;
          ok := CompileExpr(cfg, a, code);
          if ok {
            AppendedThen(code.cells, code.ninstr, c1, n1, old(code.cells), old(code.ninstr), ExprCode(cfg, b),
                         ExprCode(cfg, a));
            ghost var c2, n2 := code.cells, code.ninstr;
            var cmp := One(IntWord(cfg.width, OP_CMP, op));
            code.Add(cmp);
            AppendedThen(code.cells, code.ninstr, c2, n2, old(code.cells), old(code.ninstr),
                         ExprCode(cfg, b).Then(ExprCode(cfg, a)), cmp);
          }
        }
    }
  }

  // ------------------------------------------------------------------
  // Statements
  // ------------------------------------------------------------------

  /** The loop over the match fields of an update. */
  method CompileNames(cfg: Config, sels: seq<Selector>, code: Chunk) returns (nfield: nat)
    requires code.Valid() && code.width == cfg.width
    modifies code
    ensures code.Valid() && nfield == |MatchFields(sels)|
    ensures Appended(code.cells, code.ninstr, old(code.cells), old(code.ninstr), NamesCode(cfg, MatchFields(sels)))
  {
    hide PushTextCode;
    PushesAreOne(cfg);
    nfield := 0;
    var i := 0;
    while i < |sels|
      invariant 0 <= i <= |sels|
      invariant code.Valid() && nfield == |MatchFields(sels[..i])|
      invariant Appended(code.cells, code.ninstr, old(code.cells), old(code.ninstr),
                         NamesCode(cfg, MatchFields(sels[..i])))
    {
      assert sels[..i + 1][..i] == sels[..i];
      if sels[i].operand.None? {
        ghost var c, n, names := code.cells, code.ninstr, MatchFields(sels[..i]);
        code.Add(PushStrCode(cfg, sels[i].field));
        AppendedThen(code.cells, code.ninstr, c, n, old(code.cells), old(code.ninstr), NamesCode(cfg, names),
                     PushStrCode(cfg, sels[i].field));
        assert (names + [sels[i].field])[..|names|] == names;
        nfield := nfield + 1;
      }
      i := i + 1;
    }
    assert sels[..i] == sels;
  }

  /** Whether some selector of an lvalue names a match field. */
  method IsUpdate(sels: seq<Selector>) returns (update: bool)
    ensures update <==> MatchFields(sels) != []
  {
    update := false;
    var i := 0;
    while i < |sels|
      invariant 0 <= i <= |sels|
      invariant update <==> MatchFields(sels[..i]) != []
    {
      assert sels[..i + 1][..i] == sels[..i];
      if sels[i].operand.None? {
        update := true;
      }
      i := i + 1;
    }
    assert sels[..i] == sels;
  }

  /** compile_stmt_lvalue. */
  method CompileLvalue(cfg: Config, kind: AssignKind, l: VarRef, code: Chunk) returns (ok: bool)
    requires code.Valid() && code.width == cfg.width && l.variable.GlobalVar?
    modifies code
    ensures code.Valid() && old(code.cells) <= code.cells
    ensures ok <==> AcceptsStore(kind, l)
    ensures ok ==> Appended(code.cells, code.ninstr, old(code.cells), old(code.ninstr), StoreCode(cfg, kind, l))
  {
    hide PushTextCode, FilteredCode, IntWord, ReplaceWord, UpdateWord, MatchFields, NamesCode;
    PushesAreOne(cfg);
    var update := IsUpdate(l.selectors);
    ok := CompileFiltered(cfg, l.variable.name, l.selectors, false, code);
    if kind.Partial? && !update {
      return false;
    }
    ghost var c, before, n0 := FilteredCode(cfg, l.variable.name, l.selectors), old(code.cells), old(code.ninstr);
    ghost var c1, n1 := code.cells, code.ninstr;
    var end;
    if update {
      if l.field.Some? {
        return false;
      }
      var nfield := CompileNames(cfg, l.selectors, code);
      ghost var names := NamesCode(cfg, MatchFields(l.selectors));
      AppendedThen(code.cells, code.ninstr, c1, n1, before, n0, c, names);
      c := c.Then(names);
      end := One(if kind.Replacing? then ReplaceWord(cfg.width, nfield)
                 else UpdateWord(cfg.width, nfield, kind.Partial?));
    } else if l.field.Some? {
      code.Add(PushStrCode(cfg, l.field.value));
      AppendedThen(code.cells, code.ninstr, c1, n1, before, n0, c, PushStrCode(cfg, l.field.value));
      c := c.Then(PushStrCode(cfg, l.field.value));
      end := One(IntWord(cfg.width, OP_SET, 1));
    } else {
      end := One(if kind.Replacing? then ReplaceWord(cfg.width, 0) else IntWord(cfg.width, OP_SET, 0));
    }
    ghost var c2, n2 := code.cells, code.ninstr;
    code.Add(end);
    AppendedThen(code.cells, code.ninstr, c2, n2, before, n0, c, end);
  }

  /** compile_stmt_ifthen. */
  method CompileIf(cfg: Config, cond: Expr, thn: seq<Stmt>, els: seq<Stmt>, code: Chunk) returns (ok: bool)
    requires code.Valid() && code.width == cfg.width
    modifies code
    ensures code.Valid() && old(code.cells) <= code.cells
    ensures ok <==> AcceptsStmt(cfg, IfStmt(cond, thn, els))
    ensures ok ==>
              Appended(code.cells, code.ninstr, old(code.cells), old(code.ninstr),
                       StmtCode(cfg, IfStmt(cond, thn, els)))
    decreases IfStmt(cond, thn, els), 0
  {
    hide AcceptsExpr, AcceptsStmts, ExprCode, StmtsCode, StmtCode, BranchWord;
    ghost var c, t, e := ExprCode(cfg, cond).cells, StmtsCode(cfg, thn).cells, StmtsCode(cfg, els).cells;
    ok := CompileExpr(cfg, cond, code);
    if !ok {
      return;
    }
    var brif := code.Offset();
    code.Add(BranchCode(cfg, BRANCH_NE, 0));
    ok := CompileStmts(cfg, thn, code);
    if !ok {
      return;
    }
    NoStmtsAccepted(cfg);
    if els != [] {
      var brelse := code.Offset();
      code.Add(BranchCode(cfg, BRANCH_ALWAYS, 0));
      ok := CompileStmts(cfg, els, code);
      if !ok {
        return;
      }
      PatchIfElse(cfg, brif, brelse, code, old(code.cells) + c, t, e);
    } else {
      PatchIf(cfg, brif, code, old(code.cells) + c, t);
    }
    IfAssembled(cfg, old(code.cells), cond, thn, els);
  }

  /** The branch over the only block. */
  method PatchIf(cfg: Config, brif: nat, code: Chunk, ghost c: seq<Cell>, ghost t: seq<Cell>)
    requires code.Valid() && code.width == cfg.width && brif == |c|
    requires code.cells == c + [Word(BranchWord(cfg.width, BRANCH_NE, 0))] + t
    modifies code`cells
    ensures code.Valid() && code.cells == c + [Word(BranchWord(cfg.width, BRANCH_NE, |t| + 1))] + t
  {
    hide BranchWord;
    var brend := code.Offset();
    code.Patch(brif, BRANCH_NE, brend - brif);
    Patched(c, Word(BranchWord(cfg.width, BRANCH_NE, 0)), t, Word(BranchWord(cfg.width, BRANCH_NE, |t| + 1)));
  }

  /** The branch over the first block, and the one over the second. */
  method PatchIfElse(cfg: Config, brif: nat, brelse: nat, code: Chunk, ghost c: seq<Cell>, ghost t: seq<Cell>,
                     ghost e: seq<Cell>)
    requires code.Valid() && code.width == cfg.width && brif == |c| && brelse == |c| + 1 + |t|
    requires code.cells == c + [Word(BranchWord(cfg.width, BRANCH_NE, 0))] + t
                           + [Word(BranchWord(cfg.width, BRANCH_ALWAYS, 0))] + e
    modifies code`cells
    ensures code.Valid()
    ensures code.cells == c + [Word(BranchWord(cfg.width, BRANCH_NE, |t| + 2))] + t
                          + [Word(BranchWord(cfg.width, BRANCH_ALWAYS, |e| + 1))] + e
  {
    hide BranchWord;
    var brend := code.Offset();
    PatchedTwice(c, Word(BranchWord(cfg.width, BRANCH_NE, 0)), t, Word(BranchWord(cfg.width, BRANCH_ALWAYS, 0)), e,
                 Word(BranchWord(cfg.width, BRANCH_NE, |t| + 2)), Word(BranchWord(cfg.width, BRANCH_ALWAYS, |e| + 1)));
    code.Patch(brif, BRANCH_NE, brelse - brif + 1);
    code.Patch(brelse, BRANCH_ALWAYS, brend - brelse);
  }

  lemma IfAssembled(cfg: Config, before: seq<Cell>, cond: Expr, thn: seq<Stmt>, els: seq<Stmt>)
    ensures var c, t, e := ExprCode(cfg, cond), StmtsCode(cfg, thn), StmtsCode(cfg, els);
            var code := StmtCode(cfg, IfStmt(cond, thn, els));
            if els == [] then
              && before + c.cells + [Word(BranchWord(cfg.width, BRANCH_NE, |t.cells| + 1))] + t.cells
                 == before + code.cells
              && code.n == c.n + 1 + t.n
            else
              && before + c.cells + [Word(BranchWord(cfg.width, BRANCH_NE, |t.cells| + 2))] + t.cells
                 + [Word(BranchWord(cfg.width, BRANCH_ALWAYS, |e.cells| + 1))] + e.cells == before + code.cells
              && code.n == c.n + 1 + t.n + 1 + e.n
  {
    hide ExprCode, StmtsCode, BranchWord;
  }

  lemma NoStmtsAccepted(cfg: Config)
    ensures AcceptsStmts(cfg, [])
  {
  }

  /** compile_statement, with compile_stmt_assign and compile_stmt_call. */
  method CompileStmt(cfg: Config, s: Stmt, code: Chunk) returns (ok: bool)
    requires code.Valid() && code.width == cfg.width
    modifies code
    ensures code.Valid() && old(code.cells) <= code.cells
    ensures ok <==> AcceptsStmt(cfg, s)
    ensures ok ==> Appended(code.cells, code.ninstr, old(code.cells), old(code.ninstr), StmtCode(cfg, s))
    decreases s, 1
  {
    hide AcceptsExpr, AcceptsStmts, AcceptsCall, ExprCode, StmtsCode, CallCode, StoreCode, BranchWord, IntWord;
    match s {
      case IfStmt(cond, thn, els) => ok := CompileIf(cfg, cond, thn, els, code);
      case AssignStmt(kind, l, r) =>
        ok := CompileExpr(cfg, r, code);
        if ok {
          if l.variable.Local? {
            return false;
          }
          ghost var c, n := code.cells, code.ninstr;
          ok := CompileLvalue(cfg, kind, l, code);
          if ok {
            AppendedThen(code.cells, code.ninstr, c, n, old(code.cells), old(code.ninstr), ExprCode(cfg, r),
                         StoreCode(cfg, kind, l));
          }
        }
      case CallStmt(name, args, locals) =>
        ok := CompileCall(cfg, name, args, locals, code);
        if ok {
          ghost var c, n := code.cells, code.ninstr;
          var pop := One(IntWord(cfg.width, OP_POP, 1));
          code.Add(pop);
          AppendedThen(code.cells, code.ninstr, c, n, old(code.cells), old(code.ninstr),
                       CallCode(cfg, name, args, locals), pop);
        }
    }
  }

  /** A list of statements: a branch of an if, or the actions of a target. */
  method CompileStmts(cfg: Config, ss: seq<Stmt>, code: Chunk) returns (ok: bool)
    requires code.Valid() && code.width == cfg.width
    modifies code
    ensures code.Valid() && old(code.cells) <= code.cells
    ensures ok <==> AcceptsStmts(cfg, ss)
    ensures ok ==> Appended(code.cells, code.ninstr, old(code.cells), old(code.ninstr), StmtsCode(cfg, ss))
    decreases ss, 0
  {
    hide AcceptsStmt, StmtCode;
    var i := 0;
    while i < |ss|
      invariant 0 <= i <= |ss|
      invariant code.Valid()
      invariant forall k | 0 <= k < i :: AcceptsStmt(cfg, ss[k])
      invariant Appended(code.cells, code.ninstr, old(code.cells), old(code.ninstr), StmtsCode(cfg, ss[..i]))
    {
      assert ss[..i + 1][..i] == ss[..i];
      ghost var c, n := code.cells, code.ninstr;
      ok := CompileStmt(cfg, ss[i], code);
      if !ok {
        return;
      }
      AppendedThen(code.cells, code.ninstr, c, n, old(code.cells), old(code.ninstr), StmtsCode(cfg, ss[..i]),
                   StmtCode(cfg, ss[i]));
      i := i + 1;
    }
    assert ss[..i] == ss;
    ok := true;
  }

  /** dres_compile_target: the chunk of a target, which stays without one if it has no
      actions. */
  method CompileTarget(cfg: Config, ss: seq<Stmt>) returns (ok: bool, chunk: Option<Chunk>)
    ensures ok <==> AcceptsStmts(cfg, ss)
    ensures ok ==> (chunk.None? <==> ss == [])
    ensures chunk.Some? ==> && chunk.value.Valid() && fresh(chunk.value)
                            && chunk.value.cells == TargetCode(cfg, ss).cells
                            && chunk.value.ninstr == TargetCode(cfg, ss).n
  {
    if ss == [] {
      return true, None;
    }
    hide AcceptsStmts, StmtsCode, IntWord;
    var code := new Chunk(cfg.width, 16);
    ghost var c0 := code.cells;
    ok := CompileStmts(cfg, ss, code);
    if !ok {
      return false, None;
    }
    ghost var c, n := code.cells, code.ninstr;
    code.Add(One(IntWord(cfg.width, OP_HALT, 0)));
    AppendedThen(code.cells, code.ninstr, c, n, c0, 0, StmtsCode(cfg, ss), One(IntWord(cfg.width, OP_HALT, 0)));
    chunk := Some(code);
  }
}
