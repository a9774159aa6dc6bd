/** The rule language (include/dres/dres.h) and a direct evaluator for it.

    The evaluator is the meaning the compiler has to preserve.  It knows nothing
    of instructions, program counters or branches; it follows the compiler only
    in the order of evaluation, and it keeps track of the capacity of the stack,
    because reading a local variable fails when the stack happens to be full. */
module Lang {
  import opened Words
  import opened Facts
  import opened Machine

  /** dres_value_t, as it occurs in selectors and as the value of a local. */
  datatype Operand = OpInt(i: int) | OpDbl(d: real) | OpStr(s: string) | OpGlobal(name: string) | OpLocal(idx: nat)

  /** dres_select_t; a selector without an operand names a match field. */
  datatype Selector = Selector(field: string, neq: bool, operand: Option<Operand>)

  datatype Variable = Local(idx: nat) | GlobalVar(name: string)

  /** dres_varref_t. */
  datatype VarRef = VarRef(variable: Variable, selectors: seq<Selector>, field: Option<string>)

  datatype Binding = Binding(idx: nat, operand: Operand)

  datatype Expr =
    | ConstInt(i: int)
    | ConstDbl(d: real)
    | ConstStr(s: string)
    | Ref(ref: VarRef)
    | Rel(op: nat, arg1: Expr, arg2: Expr)
    | Not(arg: Expr)
    | Or(arg1: Expr, arg2: Expr)
    | And(arg1: Expr, arg2: Expr)
    | CallExpr(name: string, args: seq<Expr>, locals: seq<Binding>)

  datatype AssignKind = Full | Partial | Replacing

  datatype Stmt =
    | AssignStmt(kind: AssignKind, lvalue: VarRef, rvalue: Expr)
    | CallStmt(name: string, args: seq<Expr>, locals: seq<Binding>)
    | IfStmt(cond: Expr, thn: seq<Stmt>, els: seq<Stmt>)

  /** How an evaluation ends: with a value, with an exception, with a silent
      failure, or with undefined behaviour. */
  datatype Res<+T> =
    | Ok(val: T, cap: nat, w: World)
    | Exn(err: int, cap: nat, w: World)
    | Silent(cap: nat, w: World)
    | Bad
  {
    predicate IsFailure() {
      !Ok?
    }
    function PropagateFailure<U>(): Res<U>
      requires !Ok?
    {
      match this
      case Exn(err, cap, w) => Exn(err, cap, w)
      case Silent(cap, w) => Silent(cap, w)
      case Bad => Bad
    }
    function Extract(): (T, nat, World)
      requires Ok?
    {
      (val, cap, w)
    }
  }

  // ------------------------------------------------------------------
  // Expressions
  // ------------------------------------------------------------------

  /** Room for one pushed string. */
  function GrowStr(cfg: Config, cap: nat, depth: nat, s: string): nat {
    Grow(cap, depth, cfg.width.Cells(|s| + 1))
  }

  function GrowInt(cfg: Config, cap: nat, depth: nat): nat {
    Grow(cap, depth, cfg.width.Cells(4))
  }

  function EvalLocal(cfg: Config, idx: nat, depth: nat, scope: seq<Frame>, cap: nat, w: World): Res<Value> {
    if depth < cap then Ok(ScopeGet(cfg.nlocal, scope, idx), cap, w) else Exn(ENOMEM, cap, w)
  }

  function EvalOperand(cfg: Config, o: Operand, depth: nat, scope: seq<Frame>, cap: nat, w: World): Res<Value> {
    match o
    case OpInt(i) => Ok(Int(Literal(cfg.width, i)), GrowInt(cfg, cap, depth), w)
    case OpDbl(d) => Ok(Dbl(d), Grow(cap, depth, cfg.width.Cells(8)), w)
    case OpStr(s) => Ok(Str(s), GrowStr(cfg, cap, depth, s), w)
    case OpGlobal(name) => Ok(Glob(Lookup(w, name)), GrowStr(cfg, cap, depth, name), w)
    case OpLocal(idx) => EvalLocal(cfg, idx, depth, scope, cap, w)
  }

  /** The selectors with an operand, in order; the others are skipped. */
  function EvalTests(cfg: Config, sels: seq<Selector>, depth: nat, scope: seq<Frame>, cap: nat, w: World)
    : Res<seq<Test>>
  {
    if sels == [] then Ok([], cap, w)
    else
      var sel := sels[|sels| - 1];
      var (tests, cap1, w1) :- EvalTests(cfg, sels[..|sels| - 1], depth, scope, cap, w);
      match sel.operand
      case None => Ok(tests, cap1, w1)
      case Some(o) =>
        var d := depth + 3 * |tests|;
        var (v, cap2, w2) :- EvalOperand(cfg, o, d + 1, scope, GrowInt(cfg, cap1, d), w1);
        Ok(tests + [Test(sel.field, v, sel.neq)], GrowStr(cfg, cap2, d + 2, sel.field), w2)
  }

  /** A global with its selectors applied. */
  function EvalFiltered(cfg: Config, name: string, sels: seq<Selector>, depth: nat, scope: seq<Frame>, cap: nat,
                        w: World)
    : Res<Global>
  {
    var g := Lookup(w, name);
    var (tests, cap1, w1) :- EvalTests(cfg, sels, depth + 1, scope, GrowStr(cfg, cap, depth, name), w);
    match FilterAll(w1, g.facts, tests)
    case None => if Torn(w1, g.facts, tests, |g.facts|) then Bad else Exn(EINVAL, cap1, w1)
    case Some(refs) => Ok(g.(facts := refs), cap1, w1)
  }

  function FromEffect<T>(e: Effect<T>, cap: nat): Res<T> {
    match e
    case Done(v, w) => Ok(v, cap, w)
    case Error(err, w) => Exn(err, cap, w)
    case Undefined => Bad
  }

  function EvalRef(cfg: Config, r: VarRef, depth: nat, scope: seq<Frame>, cap: nat, w: World): Res<Value> {
    match r.variable
    case Local(idx) => EvalLocal(cfg, idx, depth, scope, cap, w)
    case GlobalVar(name) =>
      var (g, cap1, w1) :- EvalFiltered(cfg, name, r.selectors, depth, scope, cap, w);
      match r.field
      case None => Ok(Glob(g), cap1, w1)
      case Some(f) => FromEffect(GetFieldOf(w1, g, f), GrowStr(cfg, cap1, depth + 1, f))
  }

  /** The values of the named locals of a call, evaluated in the caller's scope. */
  function EvalBindings(cfg: Config, locals: seq<Binding>, depth: nat, scope: seq<Frame>, cap: nat, w: World)
    : Res<seq<Value>>
  {
    if locals == [] then Ok([], cap, w)
    else
      var n := |locals| - 1;
      var (vs, cap1, w1) :- EvalBindings(cfg, locals[..n], depth, scope, cap, w);
      var (v, cap2, w2) :- EvalOperand(cfg, locals[n].operand, depth + 2 * n, scope, cap1, w1);
      Ok(vs + [v], GrowInt(cfg, cap2, depth + 2 * n + 1), w2)
  }

  /** Binds locals from the last to the first, so that the first one wins. */
  function BindAll(cfg: Config, locals: seq<Binding>, vs: seq<Value>, frame: Frame): Option<Frame>
    requires |locals| == |vs|
  {
    if locals == [] then Some(frame)
    else
      var n := |locals| - 1;
      match ScopeSet(cfg.nlocal, frame, locals[n].idx, vs[n])
      case None => None
      case Some(f) => BindAll(cfg, locals[..n], vs[..n], f)
  }

  /** The scope a method is called in. */
  function EnterScope(cfg: Config, locals: seq<Binding>, depth: nat, scope: seq<Frame>, cap: nat, w: World)
    : Res<seq<Frame>>
  {
    if locals == [] then Ok(scope, cap, w)
    else
      var (vs, cap1, w1) :- EvalBindings(cfg, locals, depth, scope, cap, w);
      if |vs| != |locals| then Bad
      else match BindAll(cfg, locals, vs, map[])
           case None => Exn(EINVAL, cap1, w1)
           case Some(frame) => Ok(scope + [frame], cap1, w1)
  }

  function Invoke(cfg: Config, name: string, args: seq<Value>, depth: nat, scope: seq<Frame>, cap: nat, w: World)
    : Res<Value>
  {
    var cap1 := Grow(GrowInt(cfg, cap, depth + |args|), depth + |args|, |args|);
    if DanglingAmong(w, args) then Bad
    else match cfg.handler(name, args, scope, depth + |args|, cap1, w.(calls := w.calls + 1))
         case Crashed => Bad
         case CallResult(status, value, cap2, w1) =>
           var cap3 := if cap2 > cap1 then cap2 else cap1;
           if status < 0 then Exn(status, cap3, w1)
           else if status == 0 then Silent(cap3, w1)
           else Ok(value, cap3, w1)
  }

  function EvalCall(cfg: Config, name: string, args: seq<Expr>, locals: seq<Binding>,
                    depth: nat, scope: seq<Frame>, cap: nat, w: World): Res<Value>
    decreases args, 1
  {
    var (vs, cap1, w1) :- EvalArgs(cfg, args, depth, scope, cap, w);
    var (inner, cap2, w2) :- EnterScope(cfg, locals, depth + |args|, scope, cap1, w1);
    Invoke(cfg, name, vs, depth, inner, cap2, w2)
  }

  function EvalArgs(cfg: Config, args: seq<Expr>, depth: nat, scope: seq<Frame>, cap: nat, w: World): Res<seq<Value>>
    decreases args, 0
  {
    if args == [] then Ok([], cap, w)
    else
      var n := |args| - 1;
      var (vs, cap1, w1) :- EvalArgs(cfg, args[..n], depth, scope, cap, w);
      var (v, cap2, w2) :- Eval(cfg, args[n], depth + n, scope, cap1, w1);
      Ok(vs + [v], cap2, w2)
  }

  /** A condition, in place of the value it was computed as. */
  function Test01(v: Value, cap: nat, w: World): Res<bool> {
    if Dangling(w, v) then Bad
    else match Truth(v)
         case None => Exn(EINVAL, cap, w)
         case Some(b) => Ok(b, cap, w)
  }

  function Eval(cfg: Config, e: Expr, depth: nat, scope: seq<Frame>, cap: nat, w: World): Res<Value>
    decreases e, 2
  {
    match e
    case ConstInt(i) => EvalOperand(cfg, OpInt(i), depth, scope, cap, w)
    case ConstDbl(d) => EvalOperand(cfg, OpDbl(d), depth, scope, cap, w)
    case ConstStr(s) => EvalOperand(cfg, OpStr(s), depth, scope, cap, w)
    case Ref(r) => EvalRef(cfg, r, depth, scope, cap, w)
    case Rel(op, a, b) =>
      var (vb, cap1, w1) :- Eval(cfg, b, depth, scope, cap, w);
      var (va, cap2, w2) :- Eval(cfg, a, depth + 1, scope, cap1, w1);
      if DanglingPair(w2, va, vb) then Bad
      else (match Compare(op, va, vb)
            case None => Exn(EINVAL, cap2, w2)
            case Some(v) => Ok(v, cap2, w2))
    case Not(a) =>
      var (va, cap1, w1) :- Eval(cfg, a, depth, scope, cap, w);
      (match Negate(va)
       case None => Exn(EINVAL, cap1, w1)
       case Some(v) => Ok(v, cap1, w1))
    case Or(a, b) =>
      var (va, cap1, w1) :- Eval(cfg, a, depth, scope, cap, w);
      var (ta, _, _) :- Test01(va, cap1, w1);
      if ta then Ok(Int(1), GrowInt(cfg, cap1, depth), w1)
      else
        var (vb, cap2, w2) :- Eval(cfg, b, depth, scope, cap1, w1);
        var (tb, _, _) :- Test01(vb, cap2, w2);
        Ok(Bool(tb), GrowInt(cfg, cap2, depth), w2)
    case And(a, b) =>
      var (va, cap1, w1) :- Eval(cfg, a, depth, scope, cap, w);
      var (ta, _, _) :- Test01(va, cap1, w1);
      if !ta then Ok(Int(0), GrowInt(cfg, cap1, depth), w1)
      else
        var (vb, cap2, w2) :- Eval(cfg, b, depth, scope, cap1, w1);
        var (tb, _, _) :- Test01(vb, cap2, w2);
        Ok(Bool(tb), GrowInt(cfg, cap2, depth), w2)
    case CallExpr(name, args, locals) => EvalCall(cfg, name, args, locals, depth, scope, cap, w)
  }

  // ------------------------------------------------------------------
  // Statements
  // ------------------------------------------------------------------

  /** The match fields of an update: the selectors without an operand. */
  function MatchFields(sels: seq<Selector>): seq<string> {
    if sels == [] then []
    else
      var rest, sel := MatchFields(sels[..|sels| - 1]), sels[|sels| - 1];
      if sel.operand.None? then rest + [sel.field] else rest
  }

  function Reversed(s: seq<string>): seq<string> {
    if s == [] then [] else [s[|s| - 1]] + Reversed(s[..|s| - 1])
  }

  /** Room for pushed strings, one after the other. */
  function GrowNames(cfg: Config, names: seq<string>, cap: nat, depth: nat): nat {
    if names == [] then cap
    else
      var n := |names| - 1;
      GrowStr(cfg, GrowNames(cfg, names[..n], cap, depth), depth + n, names[n])
  }

  /** Storing a value under an lvalue. */
  function Store(cfg: Config, kind: AssignKind, l: VarRef, v: Value,
                 depth: nat, scope: seq<Frame>, cap: nat, w: World): Res<()>
    requires l.variable.GlobalVar?
  {
    var (dst, cap1, w1) :- EvalFiltered(cfg, l.variable.name, l.selectors, depth + 1, scope, cap, w);
    var names := MatchFields(l.selectors);
    if l.field.Some? && names == [] then
      FromEffect(SetFieldOf(w1, dst, l.field.value, v), GrowStr(cfg, cap1, depth + 2, l.field.value))
    else
      var cap2 := GrowNames(cfg, names, cap1, depth + 2);
      if !v.Glob? then Exn(ENOENT, cap2, w1)
      else match kind
           case Replacing =>
             (match ReplaceName(w1, dst)
              case None => Bad
              case Some(name) => FromEffect(ReplaceAll(w1, v.g.facts, dst.facts, Reversed(names), name), cap2))
           case _ =>
             if names == [] then FromEffect(SetGlobal(w1, v.g, dst), cap2)
             else FromEffect(UpdateAll(w1, v.g.facts, dst.facts, Reversed(names), kind.Partial?), cap2)
  }

  function Run(cfg: Config, s: Stmt, depth: nat, scope: seq<Frame>, cap: nat, w: World): Res<()>
    decreases s, 1
  {
    match s
    case AssignStmt(kind, l, r) =>
      var (v, cap1, w1) :- Eval(cfg, r, depth, scope, cap, w);
      if l.variable.Local? then Bad else Store(cfg, kind, l, v, depth, scope, cap1, w1)
    case CallStmt(name, args, locals) =>
      var (_, cap1, w1) :- EvalCall(cfg, name, args, locals, depth, scope, cap, w);
      Ok((), cap1, w1)
    case IfStmt(cond, thn, els) =>
      var (v, cap1, w1) :- Eval(cfg, cond, depth, scope, cap, w);
      var (t, _, _) :- Test01(v, cap1, w1);
      RunAll(cfg, if t then thn else els, depth, scope, cap1, w1)
  }

  function RunAll(cfg: Config, ss: seq<Stmt>, depth: nat, scope: seq<Frame>, cap: nat, w: World): Res<()>
    decreases ss, 0
  {
    if ss == [] then Ok((), cap, w)
    else
      var n := |ss| - 1;
      var (_, cap1, w1) :- RunAll(cfg, ss[..n], depth, scope, cap, w);
      Run(cfg, ss[n], depth, scope, cap1, w1)
  }

  // ------------------------------------------------------------------
  // Goals resolved from within actions
  // ------------------------------------------------------------------

  /** The actions of several targets, up to the first that does not succeed. */
  function RunBodies(cfg: Config, bodies: seq<seq<Stmt>>, depth: nat, scope: seq<Frame>, cap: nat, w: World): Res<()> {
    if bodies == [] then Ok((), cap, w)
    else
      var n := |bodies| - 1;
      var (_, cap1, w1) :- RunBodies(cfg, bodies[..n], depth, scope, cap, w);
      RunAll(cfg, bodies[n], depth, scope, cap1, w1)
  }

  /** What the resolver runs when a goal is asked for: the actions of the targets it
      finds in need of an update, or nothing if there is no such goal. */
  type Plan = (Option<string>, World) -> Option<seq<seq<Stmt>>>

  /** The goal `dres` is called for; `None` if it is not given as a string. */
  function DresGoal(args: seq<Value>): Option<Option<string>> {
    if args == [] then Some(None)
    else if args[0].Str? then Some(Some(args[0].s))
    else None
  }

  /** dres_builtin_dres, on a machine of its own configuration. */
  function Answer(cfg: Config, plan: Plan, args: seq<Value>, scope: seq<Frame>, depth: nat, cap: nat, w: World)
    : CallResult
  {
    match DresGoal(args)
    case None => CallResult(-EINVAL, Nil, cap, w)
    case Some(goal) =>
      match plan(goal, w)
      case None => CallResult(-EINVAL, Int(-EINVAL), cap, w)
      case Some(bodies) =>
        match RunBodies(cfg, bodies, depth, scope, cap, w)
        case Ok(_, cap1, w1) => CallResult(1, Int(1), cap1, w1)
        case Exn(err, cap1, w1) =>
          var status := if err > 0 then -err else err;
          CallResult(status, Int(status), cap1, w1)
        case Silent(cap1, w1) => CallResult(0, Int(0), cap1, w1)
        case Bad => Crashed
  }

  /** The handlers of `cfg` with `dres` among them, for goals nested up to `d` deep. */
  function DresHandler(cfg: Config, plan: Plan, d: nat): Handler {
    (name: string, args: seq<Value>, scope: seq<Frame>, depth: nat, cap: nat, w: World) =>
      if name != "dres" || d == 0 then cfg.handler(name, args, scope, depth, cap, w)
      else Answer(cfg.(handler := DresHandler(cfg, plan, d - 1)), plan, args, scope, depth, cap, w)
  }

  lemma DresAnswers(cfg: Config, plan: Plan, d: nat, args: seq<Value>, scope: seq<Frame>, depth: nat, cap: nat,
                    w: World)
    ensures DresHandler(cfg, plan, d + 1)("dres", args, scope, depth, cap, w)
         == Answer(cfg.(handler := DresHandler(cfg, plan, d)), plan, args, scope, depth, cap, w)
  {
    hide Answer;
  }

  /** How a call of `dres` for a goal ends: -EINVAL if there is no such goal; otherwise
      1, 0 for actions that fail silently, and a negative number for an error. */
  predicate ResolvedTo(cfg: Config, planned: Option<seq<seq<Stmt>>>, scope: seq<Frame>, depth: nat, cap: nat, w: World,
                       r: CallResult)
  {
    if planned.None? then r == CallResult(-EINVAL, Int(-EINVAL), cap, w)
    else
      var e := RunBodies(cfg, planned.value, depth, scope, cap, w);
      if e.Bad? then r == Crashed
      else
        && r.CallResult? && r.value == Int(r.status) && r.cap == e.cap && r.w == e.w
        && (r.status > 0 <==> e.Ok?)
        && (e.Ok? ==> r.status == 1)
        && (e.Exn? ==> r.status <= 0 && (r.status == e.err || r.status == -e.err))
        && (e.Silent? ==> r.status == 0)
  }

  /** `dres` resolves the goal it is given as its first argument, or the default goal if
      it is given none; anything but a string in its place is refused and runs nothing.
      The actions it runs may call `dres` in turn. */
  lemma DresResolves(cfg: Config, plan: Plan, d: nat, args: seq<Value>, scope: seq<Frame>, depth: nat, cap: nat,
                     w: World)
    ensures var r := DresHandler(cfg, plan, d + 1)("dres", args, scope, depth, cap, w);
            var inner := cfg.(handler := DresHandler(cfg, plan, d));
            && (args == [] ==> ResolvedTo(inner, plan(None, w), scope, depth, cap, w, r))
            && (args != [] && args[0].Str? ==> ResolvedTo(inner, plan(Some(args[0].s), w), scope, depth, cap, w, r))
            && (args != [] && !args[0].Str? ==> r == CallResult(-EINVAL, Nil, cap, w))
  {
    hide RunBodies, DresHandler;
    DresAnswers(cfg, plan, d, args, scope, depth, cap, w);
  }

  /** Other methods are answered by their own handlers, and so is `dres` once goals are
      nested too deeply. */
  lemma OthersAnswered(cfg: Config, plan: Plan, d: nat, name: string, args: seq<Value>, scope: seq<Frame>, depth: nat,
                       cap: nat, w: World)
    requires name != "dres" || d == 0
    ensures DresHandler(cfg, plan, d)(name, args, scope, depth, cap, w)
         == cfg.handler(name, args, scope, depth, cap, w)
  {
  }
}
