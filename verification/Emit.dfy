/** The code the compiler generates (src/compiler.c:73-601), as functions from
    syntax to words.  `Compiler` generates it step by step into a chunk. */
module Emit {
  import opened Words
  import opened Facts
  import opened Machine
  import opened Lang

  /** Emitted words, and how many instructions they are. */
  datatype Code = Code(cells: seq<Cell>, n: nat) {
    function Then(c: Code): Code {
      Code(cells + c.cells, n + c.n)
    }
  }

  const NOTHING := Code([], 0)

  function One(bits: nat): Code {
    Code([Word(bits)], 1)
  }

  function Fills(n: nat): (s: seq<Cell>)
    ensures |s| == n
  {
    seq(n, _ => Fill)
  }

  // ------------------------------------------------------------------
  // Pushes
  // ------------------------------------------------------------------

  function PushIntCode(cfg: Config, v: int): Code {
    var words := PushIntWords(cfg.width, v);
    Code(seq(|words|, i requires 0 <= i < |words| => Word(words[i])), 1)
  }

  /** VM_INSTR_PUSH_STRING and VM_INSTR_PUSH_GLOBAL. */
  function PushTextCode(cfg: Config, tag: nat, s: string): Code {
    Code([Word(PushWord(cfg.width, tag, |s| + 1)), Text(s)] + Fills(cfg.width.Cells(|s| + 1) - 1), 1)
  }

  function PushDblCode(cfg: Config, d: real): Code {
    Code([Word(PushWord(cfg.width, TYPE_DOUBLE, 0)), Real(d)] + Fills(cfg.width.Cells(8) - 1), 1)
  }

  function PushStrCode(cfg: Config, s: string): Code {
    PushTextCode(cfg, TYPE_STRING, s)
  }

  function PushGlobalCode(cfg: Config, name: string): Code {
    PushTextCode(cfg, TYPE_GLOBAL, name)
  }

  function GetLocalCode(cfg: Config, idx: nat): Code {
    One(GetLocalWord(cfg.width, idx))
  }

  /** PUSH_VALUE. */
  function OperandCode(cfg: Config, o: Operand): Code {
    match o
    case OpInt(i) => PushIntCode(cfg, i)
    case OpDbl(d) => PushDblCode(cfg, d)
    case OpStr(s) => PushStrCode(cfg, s)
    case OpGlobal(name) => PushGlobalCode(cfg, name)
    case OpLocal(idx) => GetLocalCode(cfg, idx)
  }

  // ------------------------------------------------------------------
  // Variable references
  // ------------------------------------------------------------------

  function TestCode(cfg: Config, field: string, neq: bool, o: Operand): Code {
    PushIntCode(cfg, if neq then RELOP_NE else RELOP_EQ)
      .Then(OperandCode(cfg, o))
      .Then(PushStrCode(cfg, field))
  }

  function TestsCode(cfg: Config, sels: seq<Selector>): Code {
    if sels == [] then NOTHING
    else
      var rest, sel := TestsCode(cfg, sels[..|sels| - 1]), sels[|sels| - 1];
      match sel.operand
      case None => rest
      case Some(o) => rest.Then(TestCode(cfg, sel.field, sel.neq, o))
  }

  function CountTests(sels: seq<Selector>): nat {
    if sels == [] then 0
    else CountTests(sels[..|sels| - 1]) + if sels[|sels| - 1].operand.Some? then 1 else 0
  }

  function FilteredCode(cfg: Config, name: string, sels: seq<Selector>): Code {
    var c := PushGlobalCode(cfg, name).Then(TestsCode(cfg, sels));
    if CountTests(sels) > 0 then c.Then(One(IntWord(cfg.width, OP_FILTER, CountTests(sels)))) else c
  }

  function RefCode(cfg: Config, r: VarRef): Code {
    match r.variable
    case Local(idx) => GetLocalCode(cfg, idx)
    case GlobalVar(name) =>
      var c := FilteredCode(cfg, name, r.selectors);
      match r.field
      case None => c
      case Some(f) => c.Then(PushStrCode(cfg, f)).Then(One(IntWord(cfg.width, OP_GET, GET_FIELD)))
  }

  // ------------------------------------------------------------------
  // Calls
  // ------------------------------------------------------------------

  /** vm_method_id. */
  function MethodId(methods: seq<string>, name: string): (id: int)
    ensures -1 <= id < |methods|
    ensures id >= 0 ==> methods[id] == name && name !in methods[..id]
    ensures id >= 0 <==> name in methods
  {
    if methods == [] then -1
    else
      var id := MethodId(methods[..|methods| - 1], name);
      if id >= 0 then id
      else if methods[|methods| - 1] == name then |methods| - 1 else -1
  }

  function BindingsCode(cfg: Config, locals: seq<Binding>): Code {
    if locals == [] then NOTHING
    else
      var b := locals[|locals| - 1];
      BindingsCode(cfg, locals[..|locals| - 1])
        .Then(OperandCode(cfg, b.operand))
        .Then(PushIntCode(cfg, b.idx))
  }

  /** The part of a call after its arguments. */
  function CallTail(cfg: Config, name: string, narg: nat, locals: seq<Binding>): Code {
    var enter := if locals == [] then NOTHING
                 else BindingsCode(cfg, locals).Then(One(PushWord(cfg.width, TYPE_LOCAL, |locals|)));
    var call := PushIntCode(cfg, MethodId(cfg.methods, name)).Then(One(IntWord(cfg.width, OP_CALL, narg)));
    var leave := if locals == [] then NOTHING else One(IntWord(cfg.width, OP_POP, 0));
    enter.Then(call).Then(leave)
  }

  function CallCode(cfg: Config, name: string, args: seq<Expr>, locals: seq<Binding>): Code
    decreases args, 1
  {
    ArgsCode(cfg, args).Then(CallTail(cfg, name, |args|, locals))
  }

  function ArgsCode(cfg: Config, args: seq<Expr>): Code
    decreases args, 0
  {
    if args == [] then NOTHING
    else ArgsCode(cfg, args[..|args| - 1]).Then(ExprCode(cfg, args[|args| - 1]))
  }

  // ------------------------------------------------------------------
  // Expressions and statements
  // ------------------------------------------------------------------

  function BranchCode(cfg: Config, kind: nat, diff: int): Code {
    One(BranchWord(cfg.width, kind, diff))
  }

  /** compile_expr_or and compile_expr_and: they differ in the branch taken and
      in which of the two results comes last. */
  function ShortCircuit(cfg: Config, a: Code, b: Code, kind: nat, last: int): Code {
    a.Then(BranchCode(cfg, kind, |b.cells| + 4))
     .Then(b)
     .Then(BranchCode(cfg, kind, 3))
     .Then(PushIntCode(cfg, 1 - last))
     .Then(BranchCode(cfg, BRANCH_ALWAYS, 2))
     .Then(PushIntCode(cfg, last))
  }

  function ExprCode(cfg: Config, e: Expr): Code
    decreases e, 2
  {
    match e
    case ConstInt(i) => PushIntCode(cfg, i)
    case ConstDbl(d) => PushDblCode(cfg, d)
    case ConstStr(s) => PushStrCode(cfg, s)
    case Ref(r) => RefCode(cfg, r)
    case Rel(op, a, b) => ExprCode(cfg, b).Then(ExprCode(cfg, a)).Then(One(IntWord(cfg.width, OP_CMP, op)))
    case Not(a) => ExprCode(cfg, a).Then(One(IntWord(cfg.width, OP_CMP, RELOP_NOT)))
    case Or(a, b) => ShortCircuit(cfg, ExprCode(cfg, a), ExprCode(cfg, b), BRANCH_EQ, 1)
    case And(a, b) => ShortCircuit(cfg, ExprCode(cfg, a), ExprCode(cfg, b), BRANCH_NE, 0)
    case CallExpr(name, args, locals) => CallCode(cfg, name, args, locals)
  }

  function NamesCode(cfg: Config, names: seq<string>): Code {
    if names == [] then NOTHING
    else NamesCode(cfg, names[..|names| - 1]).Then(PushStrCode(cfg, names[|names| - 1]))
  }

  /** compile_stmt_lvalue. */
  function StoreCode(cfg: Config, kind: AssignKind, l: VarRef): Code
    requires l.variable.GlobalVar?
  {
    var c, names := FilteredCode(cfg, l.variable.name, l.selectors), MatchFields(l.selectors);
    if names != [] then
      c.Then(NamesCode(cfg, names))
       .Then(One(if kind.Replacing? then ReplaceWord(cfg.width, |names|)
                 else UpdateWord(cfg.width, |names|, kind.Partial?)))
    else match l.field
         case Some(f) => c.Then(PushStrCode(cfg, f)).Then(One(IntWord(cfg.width, OP_SET, 1)))
         case None => c.Then(One(if kind.Replacing? then ReplaceWord(cfg.width, 0) else IntWord(cfg.width, OP_SET, 0)))
  }

  function StmtCode(cfg: Config, s: Stmt): Code
    decreases s, 1
  {
    match s
    case AssignStmt(kind, l, r) =>
      if l.variable.Local? then ExprCode(cfg, r) else ExprCode(cfg, r).Then(StoreCode(cfg, kind, l))
    case CallStmt(name, args, locals) => CallCode(cfg, name, args, locals).Then(One(IntWord(cfg.width, OP_POP, 1)))
    case IfStmt(cond, thn, els) =>
      var c, t, e := ExprCode(cfg, cond), StmtsCode(cfg, thn), StmtsCode(cfg, els);
      if els == [] then c.Then(BranchCode(cfg, BRANCH_NE, |t.cells| + 1)).Then(t)
      else c.Then(BranchCode(cfg, BRANCH_NE, |t.cells| + 2)).Then(t)
            .Then(BranchCode(cfg, BRANCH_ALWAYS, |e.cells| + 1)).Then(e)
  }

  function StmtsCode(cfg: Config, ss: seq<Stmt>): Code
    decreases ss, 0
  {
    if ss == [] then NOTHING
    else StmtsCode(cfg, ss[..|ss| - 1]).Then(StmtCode(cfg, ss[|ss| - 1]))
  }

  /** dres_compile_target. */
  function TargetCode(cfg: Config, ss: seq<Stmt>): Code {
    StmtsCode(cfg, ss).Then(One(IntWord(cfg.width, OP_HALT, 0)))
  }

  // ------------------------------------------------------------------
  // What the compiler accepts
  // ------------------------------------------------------------------

  predicate AcceptsRef(r: VarRef) {
    match r.variable
    case Local(_) => r.selectors == [] && r.field.None?
    case GlobalVar(_) => forall i | 0 <= i < |r.selectors| :: r.selectors[i].operand.Some?
  }

  predicate AcceptsCall(cfg: Config, name: string, args: seq<Expr>)
    decreases args, 1
  {
    name in cfg.methods && forall i | 0 <= i < |args| :: AcceptsExpr(cfg, args[i])
  }

  predicate AcceptsExpr(cfg: Config, e: Expr)
    decreases e, 2
  {
    match e
    case Ref(r) => AcceptsRef(r)
    case Rel(_, a, b) => AcceptsExpr(cfg, a) && AcceptsExpr(cfg, b)
    case Not(a) => AcceptsExpr(cfg, a)
    case Or(a, b) => AcceptsExpr(cfg, a) && AcceptsExpr(cfg, b)
    case And(a, b) => AcceptsExpr(cfg, a) && AcceptsExpr(cfg, b)
    case CallExpr(name, args, _) => AcceptsCall(cfg, name, args)
    case _ => true
  }

  predicate AcceptsStore(kind: AssignKind, l: VarRef) {
    && l.variable.GlobalVar?
    && (kind.Partial? ==> MatchFields(l.selectors) != [])
    && (MatchFields(l.selectors) != [] ==> l.field.None?)
  }

  predicate AcceptsStmt(cfg: Config, s: Stmt)
    decreases s, 1
  {
    match s
    case AssignStmt(kind, l, r) => AcceptsExpr(cfg, r) && AcceptsStore(kind, l)
    case CallStmt(name, args, _) => AcceptsCall(cfg, name, args)
    case IfStmt(cond, thn, els) => AcceptsExpr(cfg, cond) && AcceptsStmts(cfg, thn) && AcceptsStmts(cfg, els)
  }

  predicate AcceptsStmts(cfg: Config, ss: seq<Stmt>)
    decreases ss, 0
  {
    forall i | 0 <= i < |ss| :: AcceptsStmt(cfg, ss[i])
  }

  // ------------------------------------------------------------------
  // What fits the operand fields of the instructions
  // ------------------------------------------------------------------

  /** Numbers of fields, arguments and locals an instruction word can carry. */
  const COUNT_LIMIT := 0x7fff

  predicate FitsInt(i: int) {
    -0x8000_0000 <= i < 0x8000_0000
  }

  predicate FitsStr(cfg: Config, s: string) {
    |s| + 1 < PushLimit(cfg.width)
  }

  predicate FitsOperand(cfg: Config, o: Operand) {
    match o
    case OpInt(i) => FitsInt(i)
    case OpDbl(_) => true
    case OpStr(s) => FitsStr(cfg, s)
    case OpGlobal(name) => FitsStr(cfg, name)
    case OpLocal(idx) => idx < GET_LOCAL
  }

  predicate FitsRef(cfg: Config, r: VarRef) {
    && (match r.variable
        case Local(idx) => idx < GET_LOCAL
        case GlobalVar(name) => FitsStr(cfg, name))
    && |r.selectors| < COUNT_LIMIT
    && (forall i | 0 <= i < |r.selectors| ::
          && FitsStr(cfg, r.selectors[i].field)
          && (r.selectors[i].operand.Some? ==> FitsOperand(cfg, r.selectors[i].operand.value)))
    && (r.field.Some? ==> FitsStr(cfg, r.field.value))
  }

  predicate FitsCall(cfg: Config, args: seq<Expr>, locals: seq<Binding>)
    decreases args, 1
  {
    && |args| < COUNT_LIMIT
    && |locals| < COUNT_LIMIT
    && |cfg.methods| < COUNT_LIMIT
    && (forall i | 0 <= i < |locals| :: FitsOperand(cfg, locals[i].operand) && locals[i].idx < COUNT_LIMIT)
    && (forall i | 0 <= i < |args| :: FitsExpr(cfg, args[i]))
  }

  /** UPDATE keeps its flag in bit 7, which the count of match fields must leave clear. */
  predicate FitsStore(kind: AssignKind, n: nat) {
    !kind.Replacing? ==> n / ASSIGN_PARTIAL % 2 == 0
  }

  /** Besides the operands, the code jumped over has to be shorter than 2^21 words. */
  predicate FitsExpr(cfg: Config, e: Expr)
    decreases e, 2
  {
    match e
    case ConstInt(i) => FitsInt(i)
    case ConstDbl(_) => true
    case ConstStr(s) => FitsStr(cfg, s)
    case Ref(r) => FitsRef(cfg, r)
    case Rel(op, a, b) => RELOP_EQ <= op <= RELOP_GE && FitsExpr(cfg, a) && FitsExpr(cfg, b)
    case Not(a) => FitsExpr(cfg, a)
    case Or(a, b) => FitsExpr(cfg, a) && FitsExpr(cfg, b) && |ExprCode(cfg, b).cells| + 4 < 0x20_0000
    case And(a, b) => FitsExpr(cfg, a) && FitsExpr(cfg, b) && |ExprCode(cfg, b).cells| + 4 < 0x20_0000
    case CallExpr(_, args, locals) => FitsCall(cfg, args, locals)
  }

  predicate FitsStmt(cfg: Config, s: Stmt)
    decreases s, 1
  {
    match s
    case AssignStmt(kind, l, r) =>
      FitsExpr(cfg, r) && FitsRef(cfg, l) && FitsStore(kind, |MatchFields(l.selectors)|)
    case CallStmt(_, args, locals) => FitsCall(cfg, args, locals)
    case IfStmt(cond, thn, els) =>
      && FitsExpr(cfg, cond) && FitsStmts(cfg, thn) && FitsStmts(cfg, els)
      && |StmtsCode(cfg, thn).cells| + 2 < 0x20_0000
      && |StmtsCode(cfg, els).cells| + 2 < 0x20_0000
  }

  predicate FitsStmts(cfg: Config, ss: seq<Stmt>)
    decreases ss, 0
  {
    forall i | 0 <= i < |ss| :: FitsStmt(cfg, ss[i])
  }
}
