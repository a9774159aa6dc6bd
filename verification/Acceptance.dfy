/** Which actions the compiler refuses (src/compiler.c:172-601): it looks at each use of
    a variable or a method by itself, wherever it occurs. */
module Acceptance {
  import opened Words
  import opened Machine
  import opened Lang
  import opened Emit

  /** A place at which actions read a variable, call a method, or store a value. */
  datatype Use = Reads(ref: VarRef) | Calls(name: string) | Stores(kind: AssignKind, lvalue: VarRef)

  function UsesOfArgs(args: seq<Expr>): seq<Use>
    decreases args, 0
  {
    if args == [] then [] else UsesOfArgs(args[..|args| - 1]) + UsesOf(args[|args| - 1])
  }

  function UsesOf(e: Expr): seq<Use>
    decreases e, 1
  {
    match e
    case ConstInt(_) => []
    case ConstDbl(_) => []
    case ConstStr(_) => []
    case Ref(r) => [Reads(r)]
    case Rel(_, a, b) => UsesOf(a) + UsesOf(b)
    case Not(a) => UsesOf(a)
    case Or(a, b) => UsesOf(a) + UsesOf(b)
    case And(a, b) => UsesOf(a) + UsesOf(b)
    case CallExpr(name, args, _) => [Calls(name)] + UsesOfArgs(args)
  }

  function UsesOfStmt(s: Stmt): seq<Use>
    decreases s, 1
  {
    match s
    case AssignStmt(kind, l, r) => UsesOf(r) + [Stores(kind, l)]
    case CallStmt(name, args, _) => [Calls(name)] + UsesOfArgs(args)
    case IfStmt(cond, thn, els) => UsesOf(cond) + UsesOfStmts(thn) + UsesOfStmts(els)
  }

  function UsesOfStmts(ss: seq<Stmt>): seq<Use>
    decreases ss, 0
  {
    if ss == [] then [] else UsesOfStmts(ss[..|ss| - 1]) + UsesOfStmt(ss[|ss| - 1])
  }

  /** A selector that names a field to match by. */
  predicate Matching(r: VarRef) {
    exists i | 0 <= i < |r.selectors| :: r.selectors[i].operand.None?
  }

  /** Locals have neither selectors nor fields; globals are read without match fields;
      methods have to be known; only globals are stored to, partially only by match
      fields, and by these only as a whole. */
  predicate Allowed(cfg: Config, u: Use) {
    match u
    case Reads(r) => if r.variable.Local? then r.selectors == [] && r.field == None else !Matching(r)
    case Calls(name) => name in cfg.methods
    case Stores(kind, l) =>
      l.variable.GlobalVar? && (kind == Partial ==> Matching(l)) && !(Matching(l) && l.field.Some?)
  }

  predicate AllAllowed(cfg: Config, uses: seq<Use>) {
    forall u | u in uses :: Allowed(cfg, u)
  }

  lemma AllowedBoth(cfg: Config, a: seq<Use>, b: seq<Use>)
    ensures AllAllowed(cfg, a + b) <==> AllAllowed(cfg, a) && AllAllowed(cfg, b)
  {
    hide Allowed;
  }

  lemma AllowedOne(cfg: Config, u: Use)
    ensures AllAllowed(cfg, [u]) <==> Allowed(cfg, u)
  {
    assert u in [u];
    hide Allowed;
  }

  lemma {:induction false} MatchFieldsNone(sels: seq<Selector>)
    ensures MatchFields(sels) == [] <==> forall i | 0 <= i < |sels| :: sels[i].operand.Some?
  {
    if sels != [] {
      MatchFieldsNone(sels[..|sels| - 1]);
    }
  }

  lemma ArgsAllowed(cfg: Config, args: seq<Expr>)
    ensures (forall i | 0 <= i < |args| :: AcceptsExpr(cfg, args[i])) <==> AllAllowed(cfg, UsesOfArgs(args))
    decreases args, 0
  {
    hide AllAllowed, AcceptsExpr;
    NoneRefused(cfg);
    if args != [] {
      var n := |args| - 1;
      ArgsAllowed(cfg, args[..n]);
      ExprAllowed(cfg, args[n]);
      AllowedBoth(cfg, UsesOfArgs(args[..n]), UsesOf(args[n]));
    }
  }

  lemma NoneRefused(cfg: Config)
    ensures AllAllowed(cfg, [])
  {
  }

  lemma ExprAllowed(cfg: Config, e: Expr)
    ensures AcceptsExpr(cfg, e) <==> AllAllowed(cfg, UsesOf(e))
    decreases e, 1
  {
    hide AllAllowed;
    NoneRefused(cfg);
    match e
    case Ref(r) =>
      AllowedOne(cfg, Reads(r));
    case Rel(_, a, b) =>
      ExprAllowed(cfg, a);
      ExprAllowed(cfg, b);
      AllowedBoth(cfg, UsesOf(a), UsesOf(b));
    case Not(a) =>
      ExprAllowed(cfg, a);
    case Or(a, b) =>
      ExprAllowed(cfg, a);
      ExprAllowed(cfg, b);
      AllowedBoth(cfg, UsesOf(a), UsesOf(b));
    case And(a, b) =>
      ExprAllowed(cfg, a);
      ExprAllowed(cfg, b);
      AllowedBoth(cfg, UsesOf(a), UsesOf(b));
    case CallExpr(name, args, _) =>
      ArgsAllowed(cfg, args);
      AllowedOne(cfg, Calls(name));
      AllowedBoth(cfg, [Calls(name)], UsesOfArgs(args));
    case _ =>
  }

  lemma StmtAllowed(cfg: Config, s: Stmt)
    ensures AcceptsStmt(cfg, s) <==> AllAllowed(cfg, UsesOfStmt(s))
    decreases s, 1
  {
    hide AllAllowed, AcceptsExpr;
    match s
    case AssignStmt(kind, l, r) =>
      MatchFieldsNone(l.selectors);
      ExprAllowed(cfg, r);
      AllowedOne(cfg, Stores(kind, l));
      AllowedBoth(cfg, UsesOf(r), [Stores(kind, l)]);
    case CallStmt(name, args, _) =>
      ArgsAllowed(cfg, args);
      AllowedOne(cfg, Calls(name));
      AllowedBoth(cfg, [Calls(name)], UsesOfArgs(args));
    case IfStmt(cond, thn, els) =>
      ExprAllowed(cfg, cond);
      StmtsAllowed(cfg, thn);
      StmtsAllowed(cfg, els);
      AllowedBoth(cfg, UsesOf(cond), UsesOfStmts(thn));
      AllowedBoth(cfg, UsesOf(cond) + UsesOfStmts(thn), UsesOfStmts(els));
  }

  /** The compiler accepts the actions of a target exactly if it accepts every use in
      them: there is no other reason to refuse. */
  lemma StmtsAllowed(cfg: Config, ss: seq<Stmt>)
    ensures AcceptsStmts(cfg, ss) <==> AllAllowed(cfg, UsesOfStmts(ss))
    decreases ss, 0
  {
    hide AllAllowed, AcceptsStmt;
    NoneRefused(cfg);
    if ss != [] {
      var n := |ss| - 1;
      StmtsAllowed(cfg, ss[..n]);
      StmtAllowed(cfg, ss[n]);
      AllowedBoth(cfg, UsesOfStmts(ss[..n]), UsesOfStmt(ss[n]));
    }
  }
}
