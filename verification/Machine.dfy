/** The virtual machine (src/vm-instr.c, src/vm-stack.c, src/vm-local.c,
    src/vm-method.c, src/vm.c): what one instruction does, and what a run does
    up to and including the unwinding of VM_TRY. */
module Machine {
  import opened Words
  import opened Facts

  /** One word of a code chunk.  A string occupies `Text` followed by as many
      `Fill` words as its bytes need, a double `Real` and perhaps a `Fill`. */
  datatype Cell = Word(bits: nat) | Text(s: string) | Real(d: real) | Fill

  /** The local variables set in one scope, innermost scope last. */
  type Frame = map<nat, Value>

  /** How a handler ends; `Crashed` stands for undefined behaviour. */
  datatype CallResult = CallResult(status: int, value: Value, cap: nat, w: World) | Crashed

  /** A method handler: name, arguments, scope, depth and capacity of the stack, and
      world to its status, return value, the stack capacity it leaves behind, and its
      effect on the world. */
  type Handler = (string, seq<Value>, seq<Frame>, nat, nat, World) -> CallResult

  datatype Config = Config(width: Width, nlocal: nat, methods: seq<string>, handler: Handler)

  /** The parts of vm_state_t that outlive a run. */
  datatype Memory = Memory(stack: seq<Value>, cap: nat, scope: seq<Frame>, w: World)

  datatype State = State(pc: nat, ninstr: int, nsize: int, m: Memory)

  /** VM_TRY's record of the stack and the scope chain upon entry. */
  datatype Catch = Catch(depth: nat, scopes: nat)

  datatype Outcome =
    | Next(s: State)
    | Halted(m: Memory)
    | Raised(err: int, m: Memory)
    | Failed(m: Memory)
    | Wild

  // ------------------------------------------------------------------
  // Stack and scopes
  // ------------------------------------------------------------------

  /** vm_stack_grow: room for `n` more entries. */
  function Grow(cap: nat, depth: nat, n: nat): nat {
    if depth + n > cap then depth + n else cap
  }

  function Top(stack: seq<Value>): Value
    requires stack != []
  {
    stack[|stack| - 1]
  }

  function Drop(stack: seq<Value>): seq<Value>
    requires stack != []
  {
    stack[..|stack| - 1]
  }

  /** vm_scope_set; `None` if it refuses. */
  function ScopeSet(nlocal: nat, frame: Frame, idx: nat, v: Value): Option<Frame> {
    if nlocal <= idx then None
    else match v
         case Nil => Some(frame)
         case Glob(_) => None
         case _ => Some(frame[idx := v])
  }

  /** vm_scope_get: the innermost scope that sets the variable decides. */
  function ScopeGet(nlocal: nat, scope: seq<Frame>, idx: nat): Value {
    if scope == [] || nlocal <= idx then Nil
    else if idx in scope[|scope| - 1] then scope[|scope| - 1][idx]
    else ScopeGet(nlocal, scope[..|scope| - 1], idx)
  }

  datatype Bind = Bound(stack: seq<Value>, frame: Frame) | BindError(stack: seq<Value>, frame: Frame)

  /** The loop of PUSH LOCALS. */
  function BindLocals(nlocal: nat, n: nat, stack: seq<Value>, frame: Frame): Bind {
    if n == 0 then Bound(stack, frame)
    else if stack == [] || !Top(stack).Int? then BindError(stack, frame)
    else
      var st := Drop(stack);
      if st == [] then BindError(st, frame)
      else match ScopeSet(nlocal, frame, Top(stack).i % 0x100_0000, Top(st))
           case None => BindError(Drop(st), frame)
           case Some(f) => BindLocals(nlocal, n - 1, Drop(st), f)
  }

  datatype Popped = Kept(stack: seq<Value>, refs: seq<Ref>) | FilterError(stack: seq<Value>, torn: bool)

  /** vm_pop_int does not pop what is not an integer. */
  function PopInt(stack: seq<Value>): (int, seq<Value>) {
    if stack != [] && Top(stack).Int? then (Top(stack).i, Drop(stack)) else (0x7fff_ffff, stack)
  }

  /** vm_pop: an empty stack yields nothing, which reads as `Nil` here because
      no selector accepts either. */
  function PopAny(stack: seq<Value>): (Value, seq<Value>) {
    if stack == [] then (Nil, stack) else (Top(stack), Drop(stack))
  }

  /** The outer loop of FILTER, on a global that had `had` facts. */
  function FilterLoop(w: World, n: nat, stack: seq<Value>, refs: seq<Ref>, had: nat): Popped {
    if n == 0 then Kept(stack, refs)
    else if stack == [] || !Top(stack).Str? then FilterError(stack, |refs| < had)
    else
      var (value, st1) := PopAny(Drop(stack));
      var (op, st2) := PopInt(st1);
      var t := Test(Top(stack).s, value, op == RELOP_NE);
      match FilterOne(w, refs, t)
      case None => FilterError(st2, |refs| < had || Drops(w, refs, t))
      case Some(kept) => FilterLoop(w, n - 1, st2, kept, had)
  }

  /** vm_peek. */
  function PeekGlobal(stack: seq<Value>, i: int): Option<Global> {
    if 0 <= i < |stack| && stack[|stack| - 1 - i].Glob? then Some(stack[|stack| - 1 - i].g) else None
  }

  datatype Names = Names(fields: seq<string>, stack: seq<Value>) | NamesError(stack: seq<Value>)

  /** Pops field names, the last one pushed first. */
  function PopNames(n: nat, stack: seq<Value>): Names {
    if n == 0 then Names([], stack)
    else match PopNames(n - 1, stack)
         case NamesError(st) => NamesError(st)
         case Names(fields, st) =>
           if st != [] && Top(st).Str? then Names(fields + [Top(st).s], Drop(st)) else NamesError(st)
  }

  // ------------------------------------------------------------------
  // Values
  // ------------------------------------------------------------------

  function Bool(b: bool): Value {
    Int(if b then 1 else 0)
  }

  /** strcmp. */
  function StrCmp(s: string, t: string): int {
    if s == [] then (if t == [] then 0 else -1)
    else if t == [] then 1
    else if s[0] != t[0] then (if s[0] < t[0] then -1 else 1)
    else StrCmp(s[1..], t[1..])
  }

  predicate IntCmp(op: nat, a: int, b: int) {
    if op == RELOP_EQ then a == b
    else if op == RELOP_NE then a != b
    else if op == RELOP_LT then a < b
    else if op == RELOP_LE then a <= b
    else if op == RELOP_GT then a > b
    else a >= b
  }

  predicate DblCmp(op: nat, a: real, b: real) {
    if op == RELOP_EQ then a == b
    else if op == RELOP_NE then a != b
    else if op == RELOP_LT then a < b
    else if op == RELOP_LE then a <= b
    else if op == RELOP_GT then a > b
    else a >= b
  }

  predicate SameType(a: Value, b: Value) {
    match (a, b)
    case (Nil, Nil) => true
    case (Int(_), Int(_)) => true
    case (Dbl(_), Dbl(_)) => true
    case (Str(_, _), Str(_, _)) => true
    case (Glob(_), Glob(_)) => true
    case _ => false
  }

  /** CMP with two operands: operands of different types compare to 0 whatever
      the operator is; `None` is the exception. */
  function Compare(op: nat, a: Value, b: Value): Option<Value> {
    if !SameType(a, b) then Some(Bool(false))
    else if !(RELOP_EQ <= op <= RELOP_GE) then None
    else match a
         case Int(i) => Some(Bool(IntCmp(op, i, b.i)))
         case Dbl(d) => Some(Bool(DblCmp(op, d, b.d)))
         case Str(s, _) => Some(Bool(IntCmp(op, StrCmp(s, b.s), 0)))
         case _ => None
  }

  /** CMP with VM_RELOP_NOT: a string is tested for being a null pointer. */
  function Negate(a: Value): Option<Value> {
    match a
    case Int(i) => Some(Bool(i == 0))
    case Dbl(d) => Some(Bool(d == 0.0))
    case Str(_, _) => Some(Bool(false))
    case Glob(g) => Some(Bool(g.facts == []))
    case Nil => None
  }

  /** BRANCH: whether a value counts as true; `None` is the exception. */
  function Truth(a: Value): Option<bool> {
    match a
    case Int(i) => Some(i != 0)
    case Dbl(d) => Some(d != 0.0)
    case Str(s, _) => Some(s != "")
    case Glob(g) => Some(g.facts != [])
    case Nil => None
  }

  /** Comparing reads the strings it compares. */
  predicate DanglingPair(w: World, a: Value, b: Value) {
    a.Str? && b.Str? && (Dangling(w, a) || Dangling(w, b))
  }

  predicate DanglingAmong(w: World, values: seq<Value>) {
    exists i | 0 <= i < |values| :: Dangling(w, values[i])
  }

  // ------------------------------------------------------------------
  // One instruction
  // ------------------------------------------------------------------

  function Advance(cfg: Config, s: State, n: nat, m: Memory): Outcome {
    Next(State(s.pc + n, s.ninstr - 1, s.nsize - n * cfg.width.Bytes(), m))
  }

  /** CHECK_AND_GROW followed by a push. */
  function PushValue(cfg: Config, s: State, nbyte: nat, ncell: nat, v: Value): Outcome {
    if 0 <= s.nsize - cfg.width.Bytes() < nbyte then Raised(EINVAL, s.m)
    else
      var cap := Grow(s.m.cap, |s.m.stack|, cfg.width.Cells(nbyte));
      var m := s.m.(cap := cap, stack := if |s.m.stack| < cap then s.m.stack + [v] else s.m.stack);
      Advance(cfg, s, ncell, m)
  }

  function StepPush(cfg: Config, code: seq<Cell>, s: State, i: Instr): Outcome
    requires s.pc < |code|
  {
    var imm := if s.pc + 1 < |code| then code[s.pc + 1] else Fill;
    match i
    case PushInt(data) =>
      if data != 0 then PushValue(cfg, s, 4, 1, Int(CInt(data - 1)))
      else if imm.Word? then PushValue(cfg, s, 4, 2, Int(CInt(imm.bits)))
      else Wild
    case PushDouble =>
      if imm.Real? then PushValue(cfg, s, 8, 1 + cfg.width.Cells(8), Dbl(imm.d)) else Wild
    case PushString(len) =>
      if imm.Text? then PushValue(cfg, s, len, 1 + cfg.width.Cells(len), Str(imm.s)) else Wild
    case PushGlobal(len) =>
      if imm.Text? then PushValue(cfg, s, len, 1 + cfg.width.Cells(len), Glob(Lookup(s.m.w, imm.s))) else Wild
    case PushLocals(n) =>
      (match BindLocals(cfg.nlocal, n, s.m.stack, map[])
       case Bound(st, frame) => Advance(cfg, s, 1, s.m.(stack := st, scope := s.m.scope + [frame]))
       case BindError(st, frame) => Raised(EINVAL, s.m.(stack := st, scope := s.m.scope + [frame])))
    case _ => Raised(EINVAL, s.m)
  }

  function StepPop(cfg: Config, s: State, i: Instr): Outcome {
    if i.PopLocals? then
      if s.m.scope == [] then Raised(EINVAL, s.m)
      else Advance(cfg, s, 1, s.m.(scope := s.m.scope[..|s.m.scope| - 1]))
    else if i.PopDiscard? then
      Advance(cfg, s, 1, s.m.(stack := if s.m.stack == [] then [] else Drop(s.m.stack)))
    else Raised(EINVAL, s.m)
  }

  /** An exception is undefined behaviour if facts have been dropped before it. */
  function StepFilter(cfg: Config, s: State, n: int): Outcome {
    match PeekGlobal(s.m.stack, 3 * n)
    case None => Raised(ENOENT, s.m)
    case Some(g) =>
      (match FilterLoop(s.m.w, n, s.m.stack, g.facts, |g.facts|)
       case FilterError(st, torn) => if torn then Wild else Raised(EINVAL, s.m.(stack := st))
       case Kept(st, refs) =>
         // the global is filtered in place, where it sits on the stack
         var at := |s.m.stack| - 1 - 3 * n;
         Advance(cfg, s, 1, s.m.(stack := if at < |st| then st[at := Glob(g.(facts := refs))] else st)))
  }

  function AfterEffect(cfg: Config, s: State, st: seq<Value>, e: Effect<()>): Outcome {
    match e
    case Done(_, w) => Advance(cfg, s, 1, s.m.(stack := st, w := w))
    case Error(err, w) => Raised(err, s.m.(stack := st, w := w))
    case Undefined => Wild
  }

  function StepUpdate(cfg: Config, s: State, n: int, partial: bool): Outcome {
    if n < 0 then Wild
    else match (PeekGlobal(s.m.stack, n), PeekGlobal(s.m.stack, n + 1))
         case (Some(dst), Some(src)) =>
           (match PopNames(n, s.m.stack)
            case NamesError(st) => Raised(ENOENT, s.m.(stack := st))
            case Names(fields, st) =>
              AfterEffect(cfg, s, if |st| < 2 then [] else Drop(Drop(st)),
                          UpdateAll(s.m.w, src.facts, dst.facts, fields, partial)))
         case _ => Raised(ENOENT, s.m)
  }

  /** An exception that comes before the two globals are off the stack frees them
      where they are, and unwinding frees them again. */
  function StepReplace(cfg: Config, s: State, n: int): Outcome {
    match (PeekGlobal(s.m.stack, n), PeekGlobal(s.m.stack, n + 1))
    case (Some(dst), Some(src)) =>
      (match ReplaceName(s.m.w, dst)
       case None => Wild
       case Some(name) =>
         (match PopNames(n, s.m.stack)
          case NamesError(_) => Wild
          case Names(fields, st) =>
            AfterEffect(cfg, s, if |st| < 2 then [] else Drop(Drop(st)),
                        ReplaceAll(s.m.w, src.facts, dst.facts, fields, name))))
    case _ => Raised(ENOENT, s.m)
  }

  function StepSet(cfg: Config, s: State): Outcome {
    var st := s.m.stack;
    if st == [] || !Top(st).Glob? then
      // nothing popped as destination; the source is popped if it is a global
      Raised(ENOENT, s.m)
    else if Drop(st) == [] || !Top(Drop(st)).Glob? then Raised(ENOENT, s.m.(stack := Drop(st)))
    else AfterEffect(cfg, s, Drop(Drop(st)), SetGlobal(s.m.w, Top(Drop(st)).g, Top(st).g))
  }

  function StepSetField(cfg: Config, s: State): Outcome {
    var st := s.m.stack;
    if st == [] || !Top(st).Str? then Raised(EINVAL, s.m)
    else if Drop(st) == [] || !Top(Drop(st)).Glob? then Raised(EINVAL, s.m.(stack := Drop(st)))
    else
      var (v, st1) := PopAny(Drop(Drop(st)));
      AfterEffect(cfg, s, st1, SetFieldOf(s.m.w, Top(Drop(st)).g, Top(st).s, v))
  }

  function StepGetField(cfg: Config, s: State): Outcome {
    var st := s.m.stack;
    if st == [] || !Top(st).Str? then Raised(EINVAL, s.m)
    else if Drop(st) == [] || !Top(Drop(st)).Glob? then Raised(EINVAL, s.m.(stack := Drop(st)))
    else
      var st1 := Drop(Drop(st));
      match GetFieldOf(s.m.w, Top(Drop(st)).g, Top(st).s)
      case Done(v, _) => Advance(cfg, s, 1, s.m.(stack := st1 + [v]))
      case Error(err, _) => Raised(err, s.m.(stack := st1))
      case Undefined => Wild
  }

  /** GET LOCAL pushes without making room. */
  function StepGetLocal(cfg: Config, s: State, idx: nat): Outcome {
    if |s.m.stack| >= s.m.cap then Raised(ENOMEM, s.m)
    else Advance(cfg, s, 1, s.m.(stack := s.m.stack + [ScopeGet(cfg.nlocal, s.m.scope, idx)]))
  }

  /** vm_method_by_id and vm_method_lookup; unknown methods go to the default. */
  function MethodName(cfg: Config, id: Value): string {
    match id
    case Str(name, _) => name
    case Int(i) => if 0 <= i < |cfg.methods| then cfg.methods[i] else "default"
    case _ => ""
  }

  function StepCall(cfg: Config, s: State, n: int): Outcome {
    var st := s.m.stack;
    if n < 0 then Wild
    else if st == [] || !(Top(st).Str? || Top(st).Int?) then
      Raised(EINVAL, s.m.(stack := if st == [] then [] else Drop(st)))
    else
      var st1 := Drop(st);
      var cap := Grow(s.m.cap, |st1|, n);
      if |st1| < n then Raised(ENOENT, s.m.(stack := st1, cap := cap))
      else if DanglingAmong(s.m.w, st1[|st1| - n..]) then Wild
      else
        match cfg.handler(MethodName(cfg, Top(st)), st1[|st1| - n..], s.m.scope, |st1|, cap,
                          s.m.w.(calls := s.m.w.calls + 1))
        case Crashed => Wild
        case CallResult(status, value, cap1, w) =>
          var m := s.m.(stack := st1[..|st1| - n], cap := if cap1 > cap then cap1 else cap, w := w);
          if status < 0 then Raised(status, m)
          else if status == 0 then Failed(m)
          else Advance(cfg, s, 1, m.(stack := m.stack + [value]))
  }

  function StepCmp(cfg: Config, s: State, op: nat): Outcome {
    var st := s.m.stack;
    if st == [] then Raised(ENOENT, s.m)
    else if op == RELOP_NOT then
      match Negate(Top(st))
      case None => Raised(EINVAL, s.m.(stack := Drop(st)))
      case Some(v) => Advance(cfg, s, 1, s.m.(stack := Drop(st) + [v]))
    else if Drop(st) == [] then Raised(ENOENT, s.m.(stack := []))
    else if DanglingPair(s.m.w, Top(st), Top(Drop(st))) then Wild
    else
      var st1 := Drop(Drop(st));
      match Compare(op, Top(st), Top(Drop(st)))
      case None => Raised(EINVAL, s.m.(stack := st1))
      case Some(v) => Advance(cfg, s, 1, s.m.(stack := st1 + [v]))
  }

  /** A taken branch leaves ninstr and nsize alone. */
  function Jump(cfg: Config, s: State, diff: int, taken: bool, m: Memory): Outcome {
    if !taken then Next(s.(pc := s.pc + 1, m := m))
    else if diff > 0 && s.nsize < diff * cfg.width.Bytes() then Raised(EOVERFLOW, m)
    else if s.pc + diff < 0 then Wild
    else Next(s.(pc := s.pc + diff, m := m))
  }

  function StepBranch(cfg: Config, s: State, kind: nat, diff: int): Outcome {
    var st := s.m.stack;
    if kind == BRANCH_ALWAYS then Jump(cfg, s, diff, true, s.m)
    else if kind > BRANCH_NE then Raised(EINVAL, s.m)
    else if st == [] then Raised(ENOENT, s.m)
    else if Dangling(s.m.w, Top(st)) then Wild
    else
      var m := s.m.(stack := Drop(st));
      match Truth(Top(st))
      case None => Raised(EINVAL, m)
      case Some(b) => Jump(cfg, s, diff, b == (kind == BRANCH_EQ), m)
  }

  function StepInstr(cfg: Config, code: seq<Cell>, s: State, i: Instr): Outcome
    requires s.pc < |code|
  {
    match i
    case PushInt(_) => StepPush(cfg, code, s, i)
    case PushDouble => StepPush(cfg, code, s, i)
    case PushString(_) => StepPush(cfg, code, s, i)
    case PushGlobal(_) => StepPush(cfg, code, s, i)
    case PushLocals(_) => StepPush(cfg, code, s, i)
    case BadPush => Raised(EINVAL, s.m)
    case PopLocals => StepPop(cfg, s, i)
    case PopDiscard => StepPop(cfg, s, i)
    case BadPop => Raised(EINVAL, s.m)
    case Filter(n) => StepFilter(cfg, s, n)
    case Update(n, partial) => StepUpdate(cfg, s, n, partial)
    case Replace(n) => StepReplace(cfg, s, n)
    case SetVar => StepSet(cfg, s)
    case SetField => StepSetField(cfg, s)
    case GetField => StepGetField(cfg, s)
    case GetLocal(idx) => StepGetLocal(cfg, s, idx)
    case Call(n) => StepCall(cfg, s, n)
    case Cmp(op) => StepCmp(cfg, s, op)
    case Branch(kind, diff) => StepBranch(cfg, s, kind, diff)
    case Halt => Halted(s.m)
    case Unmodelled => Wild
    case Illegal => Raised(EILSEQ, s.m)
  }

  function Step(cfg: Config, code: seq<Cell>, s: State): Outcome
    requires s.pc < |code|
  {
    if code[s.pc].Word? then StepInstr(cfg, code, s, Decode(code[s.pc].bits)) else Wild
  }

  // ------------------------------------------------------------------
  // A run
  // ------------------------------------------------------------------

  /** How vm_exec ends.  `halted` tells HALT from running out of instructions;
      `Stuck` stands for leaving the chunk, undefined behaviour, or a step that
      does not move the program counter forward. */
  datatype Final =
    | Ran(halted: bool, m: Memory)
    | Threw(err: int, m: Memory)
    | Gave(m: Memory)
    | Stuck

  /** What VM_TRY restores when an exception arrives. */
  function Unwind(base: Catch, m: Memory): Memory {
    m.(stack := if |m.stack| > base.depth then m.stack[..base.depth] else m.stack,
       scope := if |m.scope| >= base.scopes then m.scope[..base.scopes] else [])
  }

  /** vm_run under VM_TRY. */
  function Exec(cfg: Config, code: seq<Cell>, base: Catch, s: State): Final
    decreases |code| - s.pc
  {
    if s.ninstr <= 0 then Ran(false, s.m)
    else if s.pc >= |code| then Stuck
    else match Step(cfg, code, s)
         case Next(s1) => if s.pc < s1.pc then Exec(cfg, code, base, s1) else Stuck
         case Halted(m) => Ran(true, m)
         case Raised(err, m) => Threw(err, Unwind(base, m))
         case Failed(m) => Gave(Unwind(base, m))
         case Wild => Stuck
  }

  /** The status vm_exec returns. */
  function Status(f: Final): int
    requires !f.Stuck?
  {
    match f
    case Ran(_, _) => 1
    case Threw(err, _) => if err > 0 then -err else err
    case Gave(_) => 0
  }

  /** vm_exec: a chunk of `ninstr` instructions from its beginning. */
  function VmExec(cfg: Config, code: seq<Cell>, ninstr: nat, m: Memory): Final {
    Exec(cfg, code, Catch(|m.stack|, |m.scope|), State(0, ninstr, |code| * cfg.width.Bytes(), m))
  }
}
