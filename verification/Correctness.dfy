/** Semantic preservation: running emitted code does what the evaluator says,
    and vm_exec gives the stack and the scope chain back as it found them. */
module Correctness {
  import opened Words
  import opened Facts
  import opened Machine
  import opened Lang
  import opened Emit

  // ------------------------------------------------------------------
  // Vocabulary
  // ------------------------------------------------------------------

  /** The words of `c` sit at `pc`, and they are not the last ones. */
  ghost predicate At(code: seq<Cell>, pc: nat, cells: seq<Cell>) {
    pc + |cells| < |code| && code[pc..pc + |cells|] == cells
  }

  lemma AtSplit(code: seq<Cell>, pc: nat, a: seq<Cell>, b: seq<Cell>)
    requires At(code, pc, a + b)
    ensures At(code, pc, a) && At(code, pc + |a|, b)
  {
    assert code[pc..pc + |a|] == (a + b)[..|a|] == a;
    assert code[pc + |a|..pc + |a| + |b|] == (a + b)[|a|..] == b;
  }

  /** The bytes of code from `pc` on. */
  ghost function BytesFrom(cfg: Config, code: seq<Cell>, pc: int): int {
    (|code| - pc) * cfg.width.Bytes()
  }

  /** A state about to run `c`, with `k` instructions accounted for after it.
      ninstr and nsize may promise more than is left, never less. */
  ghost predicate Ready(cfg: Config, code: seq<Cell>, base: Catch, s: State, c: Code, k: nat) {
    && At(code, s.pc, c.cells)
    && k >= 1
    && s.ninstr >= c.n + k
    && s.nsize >= BytesFrom(cfg, code, s.pc)
    && base.depth <= |s.m.stack|
    && base.scopes <= |s.m.scope|
  }

  /** The state past `c`, with some values pushed. */
  ghost predicate Past(cfg: Config, code: seq<Cell>, s: State, c: Code, k: nat, pushed: seq<Value>, cap: nat, w: World,
                       s1: State)
  {
    && s1.pc == s.pc + |c.cells|
    && s1.m == s.m.(stack := s.m.stack + pushed, cap := cap, w := w)
    && s1.ninstr >= k
    && s1.nsize >= BytesFrom(cfg, code, s1.pc)
  }

  /** What VM_TRY leaves of `s` when it catches something. */
  ghost function Caught(base: Catch, s: State, cap: nat, w: World): Memory
    requires base.depth <= |s.m.stack| && base.scopes <= |s.m.scope|
  {
    Memory(s.m.stack[..base.depth], cap, s.m.scope[..base.scopes], w)
  }

  /** A run that does not complete normally ends as the evaluation does. */
  ghost predicate Ends<T>(cfg: Config, code: seq<Cell>, base: Catch, s: State, r: Res<T>)
    requires base.depth <= |s.m.stack| && base.scopes <= |s.m.scope|
  {
    match r
    case Ok(_, _, _) => true
    case Exn(err, cap, w) => Exec(cfg, code, base, s) == Threw(err, Caught(base, s, cap, w))
    case Silent(cap, w) => Exec(cfg, code, base, s) == Gave(Caught(base, s, cap, w))
    case Bad => Exec(cfg, code, base, s) == Stuck
  }

  /** Running `c` from `s` does what `r` says, pushing `pushed`. */
  ghost predicate Does<T>(cfg: Config, code: seq<Cell>, base: Catch, s: State, c: Code, k: nat,
                          r: Res<T>, pushed: seq<Value>, s1: State)
    requires base.depth <= |s.m.stack| && base.scopes <= |s.m.scope|
  {
    && (r.Ok? ==> Past(cfg, code, s, c, k, pushed, r.cap, r.w, s1)
                  && Exec(cfg, code, base, s) == Exec(cfg, code, base, s1))
    && Ends(cfg, code, base, s, r)
  }

  /** A run from `s` gets to `s1`, `n` words further on, with memory `m`. */
  ghost predicate Arrives(cfg: Config, code: seq<Cell>, base: Catch, s: State, k: nat, n: nat, m: Memory, s1: State) {
    && s1.pc == s.pc + n && s1.m == m && s1.ninstr >= k
    && s1.nsize >= BytesFrom(cfg, code, s1.pc)
    && Exec(cfg, code, base, s) == Exec(cfg, code, base, s1)
  }

  /** A run from `s` ends with an exception; `st` was on the stack all along. */
  ghost predicate Throws(cfg: Config, code: seq<Cell>, base: Catch, s: State, err: int, st: seq<Value>, cap: nat,
                         w: World)
    requires base.depth <= |st| && base.scopes <= |s.m.scope|
  {
    Exec(cfg, code, base, s) == Threw(err, Memory(st[..base.depth], cap, s.m.scope[..base.scopes], w))
  }

  // ------------------------------------------------------------------
  // Single instructions
  // ------------------------------------------------------------------

  /** The instruction at the program counter is known. */
  lemma Fetched(cfg: Config, code: seq<Cell>, s: State, bits: nat, i: Instr)
    requires s.pc < |code| && code[s.pc] == Word(bits) && Decode(bits) == i
    ensures Step(cfg, code, s) == StepInstr(cfg, code, s, i)
  {
  }

  lemma Stepped(cfg: Config, code: seq<Cell>, base: Catch, s: State, s1: State)
    requires s.ninstr > 0 && s.pc < |code| && s.pc < s1.pc
    requires Step(cfg, code, s) == Next(s1)
    ensures Exec(cfg, code, base, s) == Exec(cfg, code, base, s1)
  {
  }

  lemma Ahead(cfg: Config, code: seq<Cell>, pc: nat, n: nat)
    requires pc + n <= |code|
    ensures BytesFrom(cfg, code, pc) == n * cfg.width.Bytes() + BytesFrom(cfg, code, pc + n)
    ensures BytesFrom(cfg, code, pc + n) >= 0 && n * cfg.width.Bytes() >= 0
    ensures BytesFrom(cfg, code, 0) == |code| * cfg.width.Bytes()
  {
  }

  /** nsize and ninstr stay large enough when `n` words are left behind. */
  lemma Sized(cfg: Config, code: seq<Cell>, s: State, n: nat)
    requires s.nsize >= BytesFrom(cfg, code, s.pc)
    ensures s.nsize - n * cfg.width.Bytes() >= BytesFrom(cfg, code, s.pc + n)
  {
  }

  /** There is more data than the words of the instruction itself hold. */
  lemma Enough(cfg: Config, code: seq<Cell>, s: State, n: nat)
    requires s.nsize >= BytesFrom(cfg, code, s.pc)
    requires s.pc + n < |code|
    ensures s.nsize - cfg.width.Bytes() >= n * cfg.width.Bytes()
  {
  }

  lemma SomeCells(cfg: Config, nbyte: nat)
    requires nbyte > 0
    ensures cfg.width.Cells(nbyte) >= 1
  {
  }

  lemma PushRun(cfg: Config, code: seq<Cell>, base: Catch, s: State, c: Code, k: nat, nbyte: nat, v: Value)
    returns (s1: State)
    requires Ready(cfg, code, base, s, c, k)
    requires c.n == 1 && |c.cells| >= 1
    requires 0 < nbyte <= |c.cells| * cfg.width.Bytes()
    requires Step(cfg, code, s) == PushValue(cfg, s, nbyte, |c.cells|, v)
    ensures Past(cfg, code, s, c, k, [v], Grow(s.m.cap, |s.m.stack|, cfg.width.Cells(nbyte)), s.m.w, s1)
    ensures Exec(cfg, code, base, s) == Exec(cfg, code, base, s1)
  {
    hide BytesFrom, Exec, Step;
    var n := |c.cells|;
    Sized(cfg, code, s, n);
    Enough(cfg, code, s, n);
    SomeCells(cfg, nbyte);
    var m := s.m.(cap := Grow(s.m.cap, |s.m.stack|, cfg.width.Cells(nbyte)), stack := s.m.stack + [v]);
    s1 := State(s.pc + n, s.ninstr - 1, s.nsize - n * cfg.width.Bytes(), m);
    Stepped(cfg, code, base, s, s1);
  }

  lemma OneOrTwo(w: Width, v: int)
    ensures 1 <= |PushIntWords(w, v)| <= 2
  {
  }

  lemma PushIntRun(cfg: Config, code: seq<Cell>, base: Catch, s: State, v: int, k: nat) returns (s1: State)
    requires FitsInt(v)
    requires Ready(cfg, code, base, s, PushIntCode(cfg, v), k)
    ensures Past(cfg, code, s, PushIntCode(cfg, v), k, [Int(Literal(cfg.width, v))],
                 GrowInt(cfg, s.m.cap, |s.m.stack|), s.m.w, s1)
    ensures Exec(cfg, code, base, s) == Exec(cfg, code, base, s1)
  {
    hide BytesFrom, Exec, Step, PushIntWords, Literal, PushValue;
    var words, c := PushIntWords(cfg.width, v), PushIntCode(cfg, v);
    OneOrTwo(cfg.width, v);
    assert code[s.pc] == c.cells[0] == Word(words[0]);
    assert |words| == 2 ==> code[s.pc + 1] == c.cells[1] == Word(words[1]);
    PushIntStep(cfg, code, s, v);
    s1 := PushRun(cfg, code, base, s, c, k, 4, Int(Literal(cfg.width, v)));
  }

  lemma PushIntStep(cfg: Config, code: seq<Cell>, s: State, v: int)
    requires FitsInt(v)
    requires s.pc < |code|
    requires code[s.pc] == Word(PushIntWords(cfg.width, v)[0])
    requires |PushIntWords(cfg.width, v)| == 2 ==>
               s.pc + 1 < |code| && code[s.pc + 1] == Word(PushIntWords(cfg.width, v)[1])
    ensures Step(cfg, code, s)
         == PushValue(cfg, s, 4, |PushIntWords(cfg.width, v)|, Int(Literal(cfg.width, v)))
  {
    PushIntDecodes(cfg.width, v);
    Fetched(cfg, code, s, PushIntWords(cfg.width, v)[0], PushInt(PushIntData(cfg.width, v)));
    PushIntValue(cfg.width, v);
  }

  lemma PushTextRun(cfg: Config, code: seq<Cell>, base: Catch, s: State, global: bool, text: string, k: nat)
    returns (s1: State)
    requires FitsStr(cfg, text)
    requires Ready(cfg, code, base, s, PushTextCode(cfg, if global then TYPE_GLOBAL else TYPE_STRING, text), k)
    ensures Past(cfg, code, s, PushTextCode(cfg, if global then TYPE_GLOBAL else TYPE_STRING, text), k,
                 [if global then Glob(Lookup(s.m.w, text)) else Str(text)],
                 GrowStr(cfg, s.m.cap, |s.m.stack|, text), s.m.w, s1)
    ensures Exec(cfg, code, base, s) == Exec(cfg, code, base, s1)
  {
    hide BytesFrom, Exec, Step, PushWord, Lookup, Decode;
    var tag, len := if global then TYPE_GLOBAL else TYPE_STRING, |text| + 1;
    var c := PushTextCode(cfg, tag, text);
    assert code[s.pc] == c.cells[0] && code[s.pc + 1] == c.cells[1];
    PushTextStep(cfg, code, s, global, text);
    s1 := PushRun(cfg, code, base, s, c, k, len, if global then Glob(Lookup(s.m.w, text)) else Str(text));
  }

  lemma PushTextStep(cfg: Config, code: seq<Cell>, s: State, global: bool, text: string)
    requires FitsStr(cfg, text)
    requires s.pc + 1 < |code| && code[s.pc + 1] == Text(text)
    requires code[s.pc] == Word(PushWord(cfg.width, if global then TYPE_GLOBAL else TYPE_STRING, |text| + 1))
    ensures Step(cfg, code, s)
         == PushValue(cfg, s, |text| + 1, 1 + cfg.width.Cells(|text| + 1),
                      if global then Glob(Lookup(s.m.w, text)) else Str(text))
  {
    hide BytesFrom, PushWord, Lookup, Decode;
    var tag, len := if global then TYPE_GLOBAL else TYPE_STRING, |text| + 1;
    PushDecodes(cfg.width, tag, len);
    Fetched(cfg, code, s, PushWord(cfg.width, tag, len), if global then PushGlobal(len) else PushString(len));
  }

  lemma PushDblRun(cfg: Config, code: seq<Cell>, base: Catch, s: State, d: real, k: nat) returns (s1: State)
    requires Ready(cfg, code, base, s, PushDblCode(cfg, d), k)
    ensures Past(cfg, code, s, PushDblCode(cfg, d), k, [Dbl(d)],
                 Grow(s.m.cap, |s.m.stack|, cfg.width.Cells(8)), s.m.w, s1)
    ensures Exec(cfg, code, base, s) == Exec(cfg, code, base, s1)
  {
    hide BytesFrom, Exec, Step, PushWord, Decode;
    var c := PushDblCode(cfg, d);
    assert code[s.pc] == c.cells[0] && code[s.pc + 1] == c.cells[1];
    PushDblStep(cfg, code, s, d);
    s1 := PushRun(cfg, code, base, s, c, k, 8, Dbl(d));
  }

  lemma PushDblStep(cfg: Config, code: seq<Cell>, s: State, d: real)
    requires s.pc + 1 < |code| && code[s.pc + 1] == Real(d)
    requires code[s.pc] == Word(PushWord(cfg.width, TYPE_DOUBLE, 0))
    ensures Step(cfg, code, s) == PushValue(cfg, s, 8, 1 + cfg.width.Cells(8), Dbl(d))
  {
    hide BytesFrom, PushWord, Decode;
    PushDecodes(cfg.width, TYPE_DOUBLE, 0);
    Fetched(cfg, code, s, PushWord(cfg.width, TYPE_DOUBLE, 0), PushDouble);
  }

  /** An instruction of one word that goes on to the next. */
  lemma AdvanceRun(cfg: Config, code: seq<Cell>, base: Catch, s: State, bits: nat, k: nat, m: Memory)
    returns (s1: State)
    requires Ready(cfg, code, base, s, One(bits), k)
    requires Step(cfg, code, s) == Advance(cfg, s, 1, m)
    ensures s1.pc == s.pc + 1 && s1.m == m && s1.ninstr >= k
    ensures s1.nsize >= BytesFrom(cfg, code, s1.pc)
    ensures Exec(cfg, code, base, s) == Exec(cfg, code, base, s1)
  {
    hide BytesFrom, Exec, Step, Decode;
    Sized(cfg, code, s, 1);
    s1 := State(s.pc + 1, s.ninstr - 1, s.nsize - 1 * cfg.width.Bytes(), m);
    Stepped(cfg, code, base, s, s1);
  }

  lemma OneFetched(cfg: Config, code: seq<Cell>, base: Catch, s: State, bits: nat, k: nat, i: Instr)
    requires Ready(cfg, code, base, s, One(bits), k)
    requires Decode(bits) == i
    ensures Step(cfg, code, s) == StepInstr(cfg, code, s, i)
    ensures s.ninstr > 0 && s.pc < |code|
  {
    assert code[s.pc] == One(bits).cells[0];
    Fetched(cfg, code, s, bits, i);
  }

  lemma GetLocalRun(cfg: Config, code: seq<Cell>, base: Catch, s: State, idx: nat, k: nat) returns (s1: State)
    requires idx < GET_LOCAL
    requires Ready(cfg, code, base, s, GetLocalCode(cfg, idx), k)
    ensures var r := EvalLocal(cfg, idx, |s.m.stack|, s.m.scope, s.m.cap, s.m.w);
            Does(cfg, code, base, s, GetLocalCode(cfg, idx), k, r, if r.Ok? then [r.val] else [], s1)
  {
    hide BytesFrom, GetLocalWord, Decode, ScopeGet;
    GetLocalDecodes(cfg.width, idx);
    OneFetched(cfg, code, base, s, GetLocalWord(cfg.width, idx), k, GetLocal(idx));
    s1 := s;
    if |s.m.stack| < s.m.cap {
      s1 := AdvanceRun(cfg, code, base, s, GetLocalWord(cfg.width, idx), k,
                       s.m.(stack := s.m.stack + [ScopeGet(cfg.nlocal, s.m.scope, idx)]));
    }
  }

  lemma OperandRun(cfg: Config, code: seq<Cell>, base: Catch, s: State, o: Operand, k: nat) returns (s1: State)
    requires FitsOperand(cfg, o)
    requires Ready(cfg, code, base, s, OperandCode(cfg, o), k)
    ensures var r := EvalOperand(cfg, o, |s.m.stack|, s.m.scope, s.m.cap, s.m.w);
            Does(cfg, code, base, s, OperandCode(cfg, o), k, r, if r.Ok? then [r.val] else [], s1)
  {
    match o
    case OpInt(i) => s1 := PushIntRun(cfg, code, base, s, i, k);
    case OpDbl(d) => s1 := PushDblRun(cfg, code, base, s, d, k);
    case OpStr(t) => s1 := PushTextRun(cfg, code, base, s, false, t, k);
    case OpGlobal(name) => s1 := PushTextRun(cfg, code, base, s, true, name, k);
    case OpLocal(idx) => s1 := GetLocalRun(cfg, code, base, s, idx, k);
  }

  // ------------------------------------------------------------------
  // Sequencing
  // ------------------------------------------------------------------

  lemma Front(cfg: Config, code: seq<Cell>, base: Catch, s: State, c1: Code, c2: Code, k: nat)
    requires Ready(cfg, code, base, s, c1.Then(c2), k)
    ensures Ready(cfg, code, base, s, c1, c2.n + k)
  {
    AtSplit(code, s.pc, c1.cells, c2.cells);
  }

  lemma Back(cfg: Config, code: seq<Cell>, base: Catch, s: State, c1: Code, c2: Code, k: nat, s1: State)
    requires Ready(cfg, code, base, s, c1.Then(c2), k)
    requires s1.pc == s.pc + |c1.cells| && s1.ninstr >= c2.n + k
    requires s1.nsize >= BytesFrom(cfg, code, s1.pc)
    requires base.depth <= |s1.m.stack| && base.scopes <= |s1.m.scope|
    ensures Ready(cfg, code, base, s1, c2, k)
  {
    AtSplit(code, s.pc, c1.cells, c2.cells);
  }

  /** What was on the stack and in scope still is. */
  ghost predicate Extends(s: State, s1: State) {
    s.m.stack <= s1.m.stack && s.m.scope <= s1.m.scope
  }

  /** An evaluation that fails further on fails the whole. */
  lemma Inherit<T, U>(cfg: Config, code: seq<Cell>, base: Catch, s: State, s1: State, r: Res<T>, whole: Res<U>)
    requires base.depth <= |s.m.stack| && base.scopes <= |s.m.scope|
    requires Extends(s, s1)
    requires Exec(cfg, code, base, s) == Exec(cfg, code, base, s1)
    requires Ends(cfg, code, base, s1, r)
    requires !r.Ok? && whole == r.PropagateFailure()
    ensures Ends(cfg, code, base, s, whole)
  {
    assert s1.m.stack[..base.depth] == s.m.stack[..base.depth];
    assert s1.m.scope[..base.scopes] == s.m.scope[..base.scopes];
  }

  // ------------------------------------------------------------------
  // Selectors
  // ------------------------------------------------------------------

  /** How the tests of a FILTER lie on the stack. */
  ghost function OnStack(tests: seq<Test>): (st: seq<Value>)
    ensures |st| == 3 * |tests|
  {
    if tests == [] then []
    else
      var t := tests[|tests| - 1];
      OnStack(tests[..|tests| - 1]) + [Int(if t.neq then RELOP_NE else RELOP_EQ), t.value, Str(t.field)]
  }

  lemma {:induction false} TestsCounted(cfg: Config, sels: seq<Selector>, depth: nat, scope: seq<Frame>, cap: nat,
                                        w: World)
    ensures var r := EvalTests(cfg, sels, depth, scope, cap, w); r.Ok? ==> |r.val| == CountTests(sels)
  {
    if sels != [] {
      TestsCounted(cfg, sels[..|sels| - 1], depth, scope, cap, w);
    }
  }

  lemma TestRun(cfg: Config, code: seq<Cell>, base: Catch, s: State, field: string, neq: bool, o: Operand, k: nat)
    returns (s1: State)
    requires FitsStr(cfg, field) && FitsOperand(cfg, o)
    requires Ready(cfg, code, base, s, TestCode(cfg, field, neq, o), k)
    ensures var d := |s.m.stack|;
            var r := EvalOperand(cfg, o, d + 1, s.m.scope, GrowInt(cfg, s.m.cap, d), s.m.w);
            Does(cfg, code, base, s, TestCode(cfg, field, neq, o), k,
                 if r.Ok? then Ok(r.val, GrowStr(cfg, r.cap, d + 2, field), r.w) else r,
                 if r.Ok? then [Int(if neq then RELOP_NE else RELOP_EQ), r.val, Str(field)] else [], s1)
  {
    hide BytesFrom, Exec, PushIntCode, OperandCode, PushTextCode;
    var op := if neq then RELOP_NE else RELOP_EQ;
    var c1, c2, c3 := PushIntCode(cfg, op), OperandCode(cfg, o), PushStrCode(cfg, field);
    Front(cfg, code, base, s, c1.Then(c2), c3, k);
    Front(cfg, code, base, s, c1, c2, c3.n + k);
    var a := PushIntRun(cfg, code, base, s, op, c2.n + (c3.n + k));
    Back(cfg, code, base, s, c1, c2, c3.n + k, a);
    var b := OperandRun(cfg, code, base, a, o, c3.n + k);
    s1 := b;
    var r := EvalOperand(cfg, o, |a.m.stack|, a.m.scope, a.m.cap, a.m.w);
    if r.Ok? {
      Back(cfg, code, base, s, c1.Then(c2), c3, k, b);
      s1 := PushTextRun(cfg, code, base, b, false, field, k);
      assert s1.m.stack == s.m.stack + [Int(op), r.val, Str(field)];
    } else {
      Inherit(cfg, code, base, s, a, r, r);
    }
  }

  lemma OnStackMore(tests: seq<Test>, t: Test)
    ensures OnStack(tests + [t])
         == OnStack(tests) + [Int(if t.neq then RELOP_NE else RELOP_EQ), t.value, Str(t.field)]
  {
    assert (tests + [t])[..|tests|] == tests;
  }

  lemma {:induction false} TestsRun(cfg: Config, code: seq<Cell>, base: Catch, s: State, sels: seq<Selector>, k: nat)
    returns (s1: State)
    requires forall i | 0 <= i < |sels| :: FitsStr(cfg, sels[i].field)
                                        && (sels[i].operand.Some? ==> FitsOperand(cfg, sels[i].operand.value))
    requires Ready(cfg, code, base, s, TestsCode(cfg, sels), k)
    ensures var r := EvalTests(cfg, sels, |s.m.stack|, s.m.scope, s.m.cap, s.m.w);
            Does(cfg, code, base, s, TestsCode(cfg, sels), k, r, if r.Ok? then OnStack(r.val) else [], s1)
  {
    hide BytesFrom, Exec, PushIntCode, OperandCode, PushTextCode, TestCode, At, OnStack, EvalOperand, FitsOperand,
         FitsStr, GrowInt,
         GrowStr;
    s1 := s;
    if sels != [] {
      var init, sel := sels[..|sels| - 1], sels[|sels| - 1];
      var r0 := EvalTests(cfg, init, |s.m.stack|, s.m.scope, s.m.cap, s.m.w);
      if sel.operand.None? {
        s1 := TestsRun(cfg, code, base, s, init, k);
      } else {
        var c1, c2 := TestsCode(cfg, init), TestCode(cfg, sel.field, sel.neq, sel.operand.value);
        Front(cfg, code, base, s, c1, c2, k);
        var a := TestsRun(cfg, code, base, s, init, c2.n + k);
        if r0.Ok? {
          Back(cfg, code, base, s, c1, c2, k, a);
          s1 := TestRun(cfg, code, base, a, sel.field, sel.neq, sel.operand.value, k);
          var d := |a.m.stack|;
          var r1 := EvalOperand(cfg, sel.operand.value, d + 1, a.m.scope, GrowInt(cfg, a.m.cap, d), a.m.w);
          if r1.Ok? {
            var t := Test(sel.field, r1.val, sel.neq);
            OnStackMore(r0.val, t);
            assert s1.m.stack == s.m.stack + OnStack(r0.val + [t]);
          } else {
            Inherit(cfg, code, base, s, a, r1, EvalTests(cfg, sels, |s.m.stack|, s.m.scope, s.m.cap, s.m.w));
          }
        }
      }
    }
  }

  /** One turn of the outer loop of FILTER. */
  lemma FilterTurn(w: World, n: nat, rest: seq<Value>, t: Test, refs: seq<Facts.Ref>, had: nat)
    requires n > 0
    ensures FilterLoop(w, n, rest + [Int(if t.neq then RELOP_NE else RELOP_EQ), t.value, Str(t.field)], refs, had)
         == match FilterOne(w, refs, t)
            case None => FilterError(rest, |refs| < had || Drops(w, refs, t))
            case Some(kept) => FilterLoop(w, n - 1, rest, kept, had)
  {
    hide BytesFrom, FilterOne, Drops;
    var op := Int(if t.neq then RELOP_NE else RELOP_EQ);
    var full := rest + [op, t.value, Str(t.field)];
    assert Drop(full) == rest + [op, t.value];
    assert Drop(Drop(full)) == rest + [op];
    assert Drop(Drop(Drop(full))) == rest;
  }

  lemma {:induction false} FilterLoopIs(w: World, st: seq<Value>, refs: seq<Facts.Ref>, tests: seq<Test>, had: nat)
    ensures var p := FilterLoop(w, |tests|, st + OnStack(tests), refs, had);
            match FilterAll(w, refs, tests)
            case Some(kept) => p == Kept(st, kept)
            case None => p.FilterError? && st <= p.stack && (p.torn <==> Torn(w, refs, tests, had))
    decreases |tests|
  {
    hide BytesFrom, FilterOne, Top, Drop, Drops;
    if tests == [] {
      assert st + OnStack(tests) == st;
    } else {
      var init, t := tests[..|tests| - 1], tests[|tests| - 1];
      var rest := st + OnStack(init);
      assert st + OnStack(tests) == rest + [Int(if t.neq then RELOP_NE else RELOP_EQ), t.value, Str(t.field)];
      FilterTurn(w, |tests|, rest, t, refs, had);
      var kept := FilterOne(w, refs, t);
      if kept.Some? {
        FilterLoopIs(w, st, kept.value, init, had);
      }
    }
  }

  lemma FilterRun(cfg: Config, code: seq<Cell>, base: Catch, s: State, st: seq<Value>, g: Global, tests: seq<Test>,
                  k: nat)
    returns (s1: State)
    requires |tests| < COUNT_LIMIT
    requires base.depth <= |st|
    requires s.m.stack == st + [Glob(g)] + OnStack(tests)
    requires Ready(cfg, code, base, s, One(IntWord(cfg.width, OP_FILTER, |tests|)), k)
    ensures var r := FilterAll(s.m.w, g.facts, tests);
            && (r.Some? ==> Arrives(cfg, code, base, s, k, 1, s.m.(stack := st + [Glob(g.(facts := r.value))]), s1))
            && var torn := Torn(s.m.w, g.facts, tests, |g.facts|);
            && (r.None? && !torn ==> Throws(cfg, code, base, s, EINVAL, st, s.m.cap, s.m.w))
            && (r.None? && torn ==> Exec(cfg, code, base, s) == Stuck)
  {
    hide BytesFrom, Exec, FilterLoop, FilterAll, Torn, IntWord, Decode, OnStack, At, Advance;
    var n := |tests|;
    var bits := IntWord(cfg.width, OP_FILTER, n);
    IntWordDecodes(cfg.width, OP_FILTER, n);
    OneFetched(cfg, code, base, s, bits, k, Filter(n));
    assert PeekGlobal(s.m.stack, 3 * n) == Some(g);
    FilterLoopIs(s.m.w, st + [Glob(g)], g.facts, tests, |g.facts|);
    s1 := s;
    var at := |s.m.stack| - 1 - 3 * n;
    match FilterAll(s.m.w, g.facts, tests)
    case Some(refs) =>
      assert (st + [Glob(g)])[at := Glob(g.(facts := refs))] == st + [Glob(g.(facts := refs))];
      s1 := AdvanceRun(cfg, code, base, s, bits, k, s.m.(stack := st + [Glob(g.(facts := refs))]));
    case None =>
      var p := FilterLoop(s.m.w, n, s.m.stack, g.facts, |g.facts|);
      if p.torn {
        GoesWild(cfg, code, base, s);
      } else {
        Raises(cfg, code, base, s, EINVAL, s.m.(stack := p.stack));
        UnwindTo(base, s.m.(stack := p.stack), st, s.m.scope);
      }
  }

  lemma FilteredRun(cfg: Config, code: seq<Cell>, base: Catch, s: State, name: string, sels: seq<Selector>, k: nat)
    returns (s1: State)
    requires FitsStr(cfg, name) && |sels| < COUNT_LIMIT
    requires forall i | 0 <= i < |sels| :: FitsStr(cfg, sels[i].field)
                                        && (sels[i].operand.Some? ==> FitsOperand(cfg, sels[i].operand.value))
    requires Ready(cfg, code, base, s, FilteredCode(cfg, name, sels), k)
    ensures var r := EvalFiltered(cfg, name, sels, |s.m.stack|, s.m.scope, s.m.cap, s.m.w);
            Does(cfg, code, base, s, FilteredCode(cfg, name, sels), k, r, if r.Ok? then [Glob(r.val)] else [], s1)
  {
    hide BytesFrom, Exec, PushTextCode, TestsCode, EvalTests, FilterOne, Drops, OnStack;
    var c1, c2 := PushGlobalCode(cfg, name), TestsCode(cfg, sels);
    var n := CountTests(sels);
    CountBound(sels);
    var c3 := if n > 0 then One(IntWord(cfg.width, OP_FILTER, n)) else NOTHING;
    assert FilteredCode(cfg, name, sels) == c1.Then(c2).Then(c3);
    Front(cfg, code, base, s, c1.Then(c2), c3, k);
    Front(cfg, code, base, s, c1, c2, c3.n + k);
    var a := PushTextRun(cfg, code, base, s, true, name, c2.n + (c3.n + k));
    Back(cfg, code, base, s, c1, c2, c3.n + k, a);
    var b := TestsRun(cfg, code, base, a, sels, c3.n + k);
    var g := Lookup(s.m.w, name);
    var r1 := EvalTests(cfg, sels, |a.m.stack|, a.m.scope, a.m.cap, a.m.w);
    TestsCounted(cfg, sels, |a.m.stack|, a.m.scope, a.m.cap, a.m.w);
    s1 := b;
    if r1.Ok? {
      if n > 0 {
        Back(cfg, code, base, s, c1.Then(c2), c3, k, b);
        s1 := FilterRun(cfg, code, base, b, s.m.stack, g, r1.val, k);
      } else {
        assert b.m.stack == s.m.stack + [Glob(g)];
      }
    } else {
      Inherit(cfg, code, base, s, a, r1, EvalFiltered(cfg, name, sels, |s.m.stack|, s.m.scope, s.m.cap, s.m.w));
    }
  }

  lemma {:induction false} CountBound(sels: seq<Selector>)
    ensures CountTests(sels) + |MatchFields(sels)| == |sels|
  {
    if sels != [] {
      CountBound(sels[..|sels| - 1]);
    }
  }

  /** GET FIELD on a global and a field name. */
  lemma GetFieldRun(cfg: Config, code: seq<Cell>, base: Catch, s: State, st: seq<Value>, g: Global, field: string,
                    k: nat)
    returns (s1: State)
    requires base.depth <= |st|
    requires s.m.stack == st + [Glob(g), Str(field)]
    requires Ready(cfg, code, base, s, One(IntWord(cfg.width, OP_GET, GET_FIELD)), k)
    ensures var r := GetFieldOf(s.m.w, g, field);
            && (r.Done? ==> Arrives(cfg, code, base, s, k, 1, s.m.(stack := st + [r.val]), s1))
            && (r.Error? ==> Throws(cfg, code, base, s, r.err, st, s.m.cap, s.m.w))
            && (r.Undefined? ==> Exec(cfg, code, base, s) == Stuck)
  {
    hide BytesFrom, Exec, IntWord, GetFieldOf, Decode;
    var bits := IntWord(cfg.width, OP_GET, GET_FIELD);
    GetFieldDecodes(cfg.width);
    OneFetched(cfg, code, base, s, bits, k, Instr.GetField);
    assert Drop(s.m.stack) == st + [Glob(g)];
    assert Drop(Drop(s.m.stack)) == st;
    s1 := s;
    match GetFieldOf(s.m.w, g, field)
    case Done(v, _) => s1 := AdvanceRun(cfg, code, base, s, bits, k, s.m.(stack := st + [v]));
    case Error(err, _) =>
      Raises(cfg, code, base, s, err, s.m.(stack := st));
      UnwindTo(base, s.m.(stack := st), st, s.m.scope);
    case Undefined => GoesWild(cfg, code, base, s);
  }

  lemma UnwindTo(base: Catch, m: Memory, st: seq<Value>, scope: seq<Frame>)
    requires base.depth <= |st| && base.scopes <= |scope|
    requires st <= m.stack && scope <= m.scope
    ensures Unwind(base, m) == Memory(st[..base.depth], m.cap, scope[..base.scopes], m.w)
  {
    assert m.stack[..base.depth] == st[..base.depth];
    assert m.scope[..base.scopes] == scope[..base.scopes];
    assert |m.stack| == base.depth ==> m.stack == st[..base.depth];
    assert |m.scope| == base.scopes ==> m.scope == scope[..base.scopes];
  }

  lemma RefRun(cfg: Config, code: seq<Cell>, base: Catch, s: State, r: VarRef, k: nat) returns (s1: State)
    requires AcceptsRef(r) && FitsRef(cfg, r)
    requires Ready(cfg, code, base, s, RefCode(cfg, r), k)
    ensures var v := EvalRef(cfg, r, |s.m.stack|, s.m.scope, s.m.cap, s.m.w);
            Does(cfg, code, base, s, RefCode(cfg, r), k, v, if v.Ok? then [v.val] else [], s1)
  {
    hide BytesFrom, Exec, FilteredCode, EvalFiltered, PushTextCode, IntWord, GetFieldOf, Decode;
    match r.variable
    case Local(idx) => s1 := GetLocalRun(cfg, code, base, s, idx, k);
    case GlobalVar(name) =>
      if r.field.None? {
        s1 := FilteredRun(cfg, code, base, s, name, r.selectors, k);
      } else {
        var field := r.field.value;
        var c1, c2, c3 := FilteredCode(cfg, name, r.selectors), PushStrCode(cfg, field),
                          One(IntWord(cfg.width, OP_GET, GET_FIELD));
        Front(cfg, code, base, s, c1.Then(c2), c3, k);
        Front(cfg, code, base, s, c1, c2, c3.n + k);
        var a := FilteredRun(cfg, code, base, s, name, r.selectors, c2.n + (c3.n + k));
        var v := EvalFiltered(cfg, name, r.selectors, |s.m.stack|, s.m.scope, s.m.cap, s.m.w);
        s1 := a;
        if v.Ok? {
          Back(cfg, code, base, s, c1, c2, c3.n + k, a);
          var b := PushTextRun(cfg, code, base, a, false, field, c3.n + k);
          Back(cfg, code, base, s, c1.Then(c2), c3, k, b);
          assert b.m.stack == s.m.stack + [Glob(v.val), Str(field)];
          s1 := GetFieldRun(cfg, code, base, b, s.m.stack, v.val, field, k);
          assert GetFieldOf(b.m.w, v.val, field).Done? ==> GetFieldOf(b.m.w, v.val, field).w == b.m.w by {
            GetFieldReads(b.m.w, v.val, field);
          }
          GetFieldReads(b.m.w, v.val, field);
        } else {
          Inherit(cfg, code, base, s, s, v, EvalRef(cfg, r, |s.m.stack|, s.m.scope, s.m.cap, s.m.w));
        }
      }
  }

  lemma GetFieldReads(w: World, g: Global, field: string)
    ensures var e := GetFieldOf(w, g, field); !e.Undefined? && e.w == w
  {
  }

  // ------------------------------------------------------------------
  // Calls
  // ------------------------------------------------------------------

  /** How the bindings of a PUSH LOCALS lie on the stack. */
  ghost function Bound2(locals: seq<Binding>, vs: seq<Value>): (st: seq<Value>)
    requires |vs| == |locals|
    ensures |st| == 2 * |locals|
  {
    if locals == [] then []
    else
      var n := |locals| - 1;
      Bound2(locals[..n], vs[..n]) + [vs[n], Int(locals[n].idx)]
  }

  /** The value of one more local. */
  ghost function MoreBindings(cfg: Config, b: Binding, n: nat, depth: nat, scope: seq<Frame>, r0: Res<seq<Value>>)
    : Res<seq<Value>>
  {
    var (vs, cap1, w1) :- r0;
    var (v, cap2, w2) :- EvalOperand(cfg, b.operand, depth + 2 * n, scope, cap1, w1);
    Ok(vs + [v], GrowInt(cfg, cap2, depth + 2 * n + 1), w2)
  }

  lemma BindingsMore(cfg: Config, locals: seq<Binding>, depth: nat, scope: seq<Frame>, cap: nat, w: World)
    requires locals != []
    ensures var n := |locals| - 1;
            EvalBindings(cfg, locals, depth, scope, cap, w)
            == MoreBindings(cfg, locals[n], n, depth, scope, EvalBindings(cfg, locals[..n], depth, scope, cap, w))
  {
    hide BytesFrom, EvalOperand, GrowInt;
  }

  lemma BindingRun(cfg: Config, code: seq<Cell>, base: Catch, s: State, a: State, locals: seq<Binding>,
                   r0: Res<seq<Value>>, k: nat)
    returns (s1: State)
    requires locals != [] && FitsOperand(cfg, locals[|locals| - 1].operand) && locals[|locals| - 1].idx < COUNT_LIMIT
    requires Ready(cfg, code, base, s, BindingsCode(cfg, locals), k)
    requires r0.Ok? && |r0.val| == |locals| - 1
    requires var n := |locals| - 1;
             var rest := OperandCode(cfg, locals[n].operand).n + (PushIntCode(cfg, locals[n].idx).n + k);
             Does(cfg, code, base, s, BindingsCode(cfg, locals[..n]), rest, r0, Bound2(locals[..n], r0.val), a)
    ensures var r := MoreBindings(cfg, locals[|locals| - 1], |locals| - 1, |s.m.stack|, s.m.scope, r0);
            && (r.Ok? ==> |r.val| == |locals|)
            && Does(cfg, code, base, s, BindingsCode(cfg, locals), k, r, if r.Ok? then Bound2(locals, r.val) else [],
                    s1)
  {
    hide BytesFrom, Exec, PushIntCode, OperandCode, At, EvalOperand, FitsOperand, GrowInt;
    var n := |locals| - 1;
    var b := locals[n];
    var c1, c2, c3 := BindingsCode(cfg, locals[..n]), OperandCode(cfg, b.operand), PushIntCode(cfg, b.idx);
    Front(cfg, code, base, s, c1.Then(c2), c3, k);
    Back(cfg, code, base, s, c1, c2, c3.n + k, a);
    s1 := OperandRun(cfg, code, base, a, b.operand, c3.n + k);
    var r1 := EvalOperand(cfg, b.operand, |a.m.stack|, a.m.scope, a.m.cap, a.m.w);
    if r1.Ok? {
      Back(cfg, code, base, s, c1.Then(c2), c3, k, s1);
      s1 := PushIntRun(cfg, code, base, s1, b.idx, k);
      assert (r0.val + [r1.val])[..n] == r0.val;
      assert s1.m.stack == s.m.stack + Bound2(locals, r0.val + [r1.val]);
    } else {
      Inherit(cfg, code, base, s, a, r1, MoreBindings(cfg, b, n, |s.m.stack|, s.m.scope, r0));
    }
  }

  lemma {:induction false} BindingsRun(cfg: Config, code: seq<Cell>, base: Catch, s: State, locals: seq<Binding>,
                                       k: nat)
    returns (s1: State)
    requires forall i | 0 <= i < |locals| :: FitsOperand(cfg, locals[i].operand) && locals[i].idx < COUNT_LIMIT
    requires Ready(cfg, code, base, s, BindingsCode(cfg, locals), k)
    ensures var r := EvalBindings(cfg, locals, |s.m.stack|, s.m.scope, s.m.cap, s.m.w);
            && (r.Ok? ==> |r.val| == |locals|)
            && Does(cfg, code, base, s, BindingsCode(cfg, locals), k, r, if r.Ok? then Bound2(locals, r.val) else [],
                    s1)
  {
    hide BytesFrom, Exec, PushIntCode, OperandCode, At, EvalOperand, FitsOperand, GrowInt;
    s1 := s;
    if locals != [] {
      var n := |locals| - 1;
      var c1, c2, c3 := BindingsCode(cfg, locals[..n]), OperandCode(cfg, locals[n].operand),
                        PushIntCode(cfg, locals[n].idx);
      BindingsMore(cfg, locals, |s.m.stack|, s.m.scope, s.m.cap, s.m.w);
      hide BytesFrom, EvalBindings, Bound2;
      Front(cfg, code, base, s, c1.Then(c2), c3, k);
      Front(cfg, code, base, s, c1, c2, c3.n + k);
      s1 := BindingsRun(cfg, code, base, s, locals[..n], c2.n + (c3.n + k));
      var r0 := EvalBindings(cfg, locals[..n], |s.m.stack|, s.m.scope, s.m.cap, s.m.w);
      if r0.Ok? {
        s1 := BindingRun(cfg, code, base, s, s1, locals, r0, k);
      } else {
        Inherit(cfg, code, base, s, s, r0, EvalBindings(cfg, locals, |s.m.stack|, s.m.scope, s.m.cap, s.m.w));
      }
    }
  }

  /** One turn of the loop of PUSH LOCALS. */
  lemma BindOne(nlocal: nat, n: nat, rest: seq<Value>, v: Value, idx: nat, frame: Frame)
    requires n > 0 && idx < COUNT_LIMIT
    ensures BindLocals(nlocal, n, rest + [v, Int(idx)], frame)
         == match ScopeSet(nlocal, frame, idx, v)
            case None => BindError(rest, frame)
            case Some(f) => BindLocals(nlocal, n - 1, rest, f)
  {
    hide BytesFrom, ScopeSet;
    var full := rest + [v, Int(idx)];
    assert Drop(full) == rest + [v];
    assert Drop(Drop(full)) == rest;
  }

  lemma {:induction false} BindLocalsIs(cfg: Config, st: seq<Value>, locals: seq<Binding>, vs: seq<Value>, frame: Frame)
    requires |vs| == |locals|
    requires forall i | 0 <= i < |locals| :: locals[i].idx < COUNT_LIMIT
    ensures var p := BindLocals(cfg.nlocal, |locals|, st + Bound2(locals, vs), frame);
            match BindAll(cfg, locals, vs, frame)
            case Some(f) => p == Bound(st, f)
            case None => p.BindError? && st <= p.stack
    decreases |locals|
  {
    hide BytesFrom, ScopeSet, Top, Drop;
    if locals == [] {
      assert st + Bound2(locals, vs) == st;
    } else {
      var n := |locals| - 1;
      var rest := st + Bound2(locals[..n], vs[..n]);
      assert st + Bound2(locals, vs) == rest + [vs[n], Int(locals[n].idx)];
      BindOne(cfg.nlocal, |locals|, rest, vs[n], locals[n].idx, frame);
      var f := ScopeSet(cfg.nlocal, frame, locals[n].idx, vs[n]);
      if f.Some? {
        BindLocalsIs(cfg, st, locals[..n], vs[..n], f.value);
      }
    }
  }

  ghost function EnterCode(cfg: Config, locals: seq<Binding>): Code {
    if locals == [] then NOTHING
    else BindingsCode(cfg, locals).Then(One(PushWord(cfg.width, TYPE_LOCAL, |locals|)))
  }

  ghost function InvokeCode(cfg: Config, name: string, narg: nat): Code {
    PushIntCode(cfg, MethodId(cfg.methods, name)).Then(One(IntWord(cfg.width, OP_CALL, narg)))
  }

  ghost function LeaveCode(cfg: Config, locals: seq<Binding>): Code {
    if locals == [] then NOTHING else One(IntWord(cfg.width, OP_POP, 0))
  }

  /** Like `Does`, for code that ends in a memory of its own. */
  ghost predicate Reaches<T>(cfg: Config, code: seq<Cell>, base: Catch, s: State, c: Code, k: nat,
                             r: Res<T>, m: Memory, s1: State)
    requires base.depth <= |s.m.stack| && base.scopes <= |s.m.scope|
  {
    && (r.Ok? ==> && s1.pc == s.pc + |c.cells| && s1.m == m && s1.ninstr >= k
                  && s1.nsize >= BytesFrom(cfg, code, s1.pc)
                  && Exec(cfg, code, base, s) == Exec(cfg, code, base, s1))
    && Ends(cfg, code, base, s, r)
  }

  lemma PushLocalsRun(cfg: Config, code: seq<Cell>, base: Catch, s: State, st: seq<Value>, locals: seq<Binding>,
                      vs: seq<Value>, k: nat)
    returns (s1: State)
    requires |vs| == |locals| < COUNT_LIMIT
    requires forall i | 0 <= i < |locals| :: locals[i].idx < COUNT_LIMIT
    requires base.depth <= |st| && s.m.stack == st + Bound2(locals, vs)
    requires Ready(cfg, code, base, s, One(PushWord(cfg.width, TYPE_LOCAL, |locals|)), k)
    ensures var r := BindAll(cfg, locals, vs, map[]);
            && (r.Some? ==> Arrives(cfg, code, base, s, k, 1, s.m.(stack := st, scope := s.m.scope + [r.value]), s1))
            && (r.None? ==> Throws(cfg, code, base, s, EINVAL, st, s.m.cap, s.m.w))
  {
    hide BytesFrom, Exec, PushWord, BindLocals, BindAll, Decode;
    var n := |locals|;
    var bits := PushWord(cfg.width, TYPE_LOCAL, n);
    PushDecodes(cfg.width, TYPE_LOCAL, n);
    OneFetched(cfg, code, base, s, bits, k, PushLocals(n));
    BindLocalsIs(cfg, st, locals, vs, map[]);
    s1 := s;
    match BindAll(cfg, locals, vs, map[])
    case Some(frame) =>
      s1 := AdvanceRun(cfg, code, base, s, bits, k, s.m.(stack := st, scope := s.m.scope + [frame]));
    case None =>
      var p := BindLocals(cfg.nlocal, n, s.m.stack, map[]);
      var m := s.m.(stack := p.stack, scope := s.m.scope + [p.frame]);
      Raises(cfg, code, base, s, EINVAL, m);
      UnwindTo(base, m, st, s.m.scope);
  }

  lemma EnterRun(cfg: Config, code: seq<Cell>, base: Catch, s: State, locals: seq<Binding>, k: nat) returns (s1: State)
    requires |locals| < COUNT_LIMIT
    requires forall i | 0 <= i < |locals| :: FitsOperand(cfg, locals[i].operand) && locals[i].idx < COUNT_LIMIT
    requires Ready(cfg, code, base, s, EnterCode(cfg, locals), k)
    ensures var r := EnterScope(cfg, locals, |s.m.stack|, s.m.scope, s.m.cap, s.m.w);
            Reaches(cfg, code, base, s, EnterCode(cfg, locals), k, r,
                    if r.Ok? then s.m.(scope := r.val, cap := r.cap, w := r.w) else s.m, s1)
  {
    hide BytesFrom, Exec, PushWord, BindingsCode, EvalBindings, Bound2, BindAll, Decode;
    s1 := s;
    if locals != [] {
      var c1, c2 := BindingsCode(cfg, locals), One(PushWord(cfg.width, TYPE_LOCAL, |locals|));
      Front(cfg, code, base, s, c1, c2, k);
      var a := BindingsRun(cfg, code, base, s, locals, c2.n + k);
      var r0 := EvalBindings(cfg, locals, |s.m.stack|, s.m.scope, s.m.cap, s.m.w);
      if r0.Ok? {
        Back(cfg, code, base, s, c1, c2, k, a);
        s1 := PushLocalsRun(cfg, code, base, a, s.m.stack, locals, r0.val, k);
      } else {
        Inherit(cfg, code, base, s, s, r0, EnterScope(cfg, locals, |s.m.stack|, s.m.scope, s.m.cap, s.m.w));
      }
    }
  }

  lemma InvokeRun(cfg: Config, code: seq<Cell>, base: Catch, s: State, st: seq<Value>, args: seq<Value>,
                  name: string, k: nat)
    returns (s1: State)
    requires name in cfg.methods && |cfg.methods| < COUNT_LIMIT && |args| < COUNT_LIMIT
    requires base.depth <= |st| && s.m.stack == st + args
    requires Ready(cfg, code, base, s, InvokeCode(cfg, name, |args|), k)
    ensures var r := Invoke(cfg, name, args, |st|, s.m.scope, s.m.cap, s.m.w);
            && (r.Bad? ==> Exec(cfg, code, base, s) == Stuck)
            && (r.Ok? ==> Reaches(cfg, code, base, s, InvokeCode(cfg, name, |args|), k, r,
                                  s.m.(stack := st + [r.val], cap := r.cap, w := r.w), s1))
            && (r.Exn? ==> Throws(cfg, code, base, s, r.err, st, r.cap, r.w))
            && (r.Silent? ==> Exec(cfg, code, base, s)
                              == Gave(Memory(st[..base.depth], r.cap, s.m.scope[..base.scopes], r.w)))
  {
    hide BytesFrom, IntWord, PushIntCode, MethodId, Decode, Exec, Step, Grow, DanglingAmong;
    var id := MethodId(cfg.methods, name);
    var c1, c2 := PushIntCode(cfg, id), One(IntWord(cfg.width, OP_CALL, |args|));
    Front(cfg, code, base, s, c1, c2, k);
    var a := PushIntRun(cfg, code, base, s, id, c2.n + k);
    Back(cfg, code, base, s, c1, c2, k, a);
    CallRun(cfg, code, base, a, st, args, id, name, k);
    s1 := a;
    var r := Invoke(cfg, name, args, |st|, s.m.scope, s.m.cap, s.m.w);
    if r.Ok? {
      s1 := AdvanceRun(cfg, code, base, a, IntWord(cfg.width, OP_CALL, |args|), k,
                       s.m.(stack := st + [r.val], cap := r.cap, w := r.w));
    } else if r.Bad? {
      GoesWild(cfg, code, base, a);
    } else {
      var m := s.m.(stack := st, cap := r.cap, w := r.w);
      UnwindTo(base, m, st, s.m.scope);
      if r.Exn? {
        Raises(cfg, code, base, a, r.err, m);
      } else {
        Fails(cfg, code, base, a, m);
      }
    }
  }

  lemma Fails(cfg: Config, code: seq<Cell>, base: Catch, s: State, m: Memory)
    requires s.ninstr > 0 && s.pc < |code| && Step(cfg, code, s) == Failed(m)
    ensures Exec(cfg, code, base, s) == Gave(Unwind(base, m))
  {
  }

  lemma GoesWild(cfg: Config, code: seq<Cell>, base: Catch, s: State)
    requires s.ninstr > 0 && s.pc < |code| && Step(cfg, code, s) == Wild
    ensures Exec(cfg, code, base, s) == Stuck
  {
  }

  /** One CALL. */
  lemma CallRun(cfg: Config, code: seq<Cell>, base: Catch, a: State, st: seq<Value>, args: seq<Value>,
                id: int, name: string, k: nat)
    requires 0 <= id < |cfg.methods| && cfg.methods[id] == name && |args| < COUNT_LIMIT
    requires a.m.stack == st + args + [Int(id)]
    requires Ready(cfg, code, base, a, One(IntWord(cfg.width, OP_CALL, |args|)), k)
    ensures a.ninstr > 0 && a.pc < |code|
    ensures var cap := Grow(a.m.cap, |st| + |args|, |args|);
            var r := cfg.handler(name, args, a.m.scope, |st| + |args|, cap, a.m.w.(calls := a.m.w.calls + 1));
            Step(cfg, code, a) == if DanglingAmong(a.m.w, args) || r.Crashed? then Wild else
              var m := a.m.(stack := st, cap := if r.cap > cap then r.cap else cap, w := r.w);
              if r.status < 0 then Raised(r.status, m)
              else if r.status == 0 then Failed(m)
              else Advance(cfg, a, 1, m.(stack := st + [r.value]))
  {
    hide BytesFrom, Exec, IntWord, Decode;
    IntWordDecodes(cfg.width, OP_CALL, |args|);
    OneFetched(cfg, code, base, a, IntWord(cfg.width, OP_CALL, |args|), k, Call(|args|));
    hide BytesFrom, StepCall;
    StepCallIs(cfg, a, st, args, id, name);
  }

  lemma StepCallIs(cfg: Config, a: State, st: seq<Value>, args: seq<Value>, id: int, name: string)
    requires 0 <= id < |cfg.methods| && cfg.methods[id] == name
    requires a.m.stack == st + args + [Int(id)]
    ensures var cap := Grow(a.m.cap, |st| + |args|, |args|);
            var r := cfg.handler(name, args, a.m.scope, |st| + |args|, cap, a.m.w.(calls := a.m.w.calls + 1));
            StepCall(cfg, a, |args|) == if DanglingAmong(a.m.w, args) || r.Crashed? then Wild else
              var m := a.m.(stack := st, cap := if r.cap > cap then r.cap else cap, w := r.w);
              if r.status < 0 then Raised(r.status, m)
              else if r.status == 0 then Failed(m)
              else Advance(cfg, a, 1, m.(stack := st + [r.value]))
  {
    hide BytesFrom, Grow, Advance, DanglingAmong;
    assert Drop(a.m.stack) == st + args;
    assert (st + args)[|st|..] == args && (st + args)[..|st|] == st;
  }

  lemma LeaveRun(cfg: Config, code: seq<Cell>, base: Catch, s: State, locals: seq<Binding>, scope: seq<Frame>, k: nat)
    returns (s1: State)
    requires base.scopes <= |scope|
    requires locals == [] ==> s.m.scope == scope
    requires locals != [] ==> |s.m.scope| == |scope| + 1 && s.m.scope[..|scope|] == scope
    requires Ready(cfg, code, base, s, LeaveCode(cfg, locals), k)
    ensures Reaches<()>(cfg, code, base, s, LeaveCode(cfg, locals), k, Ok((), s.m.cap, s.m.w), s.m.(scope := scope), s1)
  {
    hide BytesFrom, Exec, IntWord, Decode;
    s1 := s;
    if locals != [] {
      IntWordDecodes(cfg.width, OP_POP, 0);
      OneFetched(cfg, code, base, s, IntWord(cfg.width, OP_POP, 0), k, PopLocals);
      s1 := AdvanceRun(cfg, code, base, s, IntWord(cfg.width, OP_POP, 0), k, s.m.(scope := scope));
    }
  }

  /** A call once its locals are bound. */
  lemma BoundCallRun(cfg: Config, code: seq<Cell>, base: Catch, s: State, a: State, st: seq<Value>, args: seq<Value>,
                     name: string, locals: seq<Binding>, k: nat)
    returns (s1: State)
    requires name in cfg.methods && |cfg.methods| < COUNT_LIMIT && |args| < COUNT_LIMIT
    requires base.depth <= |st| && s.m.stack == st + args
    requires Ready(cfg, code, base, s, CallTail(cfg, name, |args|, locals), k)
    requires var r := EnterScope(cfg, locals, |s.m.stack|, s.m.scope, s.m.cap, s.m.w);
             r.Ok? && Reaches(cfg, code, base, s, EnterCode(cfg, locals),
                              InvokeCode(cfg, name, |args|).n + (LeaveCode(cfg, locals).n + k),
                              r, s.m.(scope := r.val, cap := r.cap, w := r.w), a)
    ensures var r := TailOf(cfg, name, args, locals, |st|, s.m.scope, s.m.cap, s.m.w);
            Reaches(cfg, code, base, s, CallTail(cfg, name, |args|, locals), k, r,
                    if r.Ok? then s.m.(stack := st + [r.val], cap := r.cap, w := r.w) else s.m, s1)
  {
    hide BytesFrom, Exec, Invoke, EnterScope, InvokeCode, EnterCode, LeaveCode, At, CallTail;
    var c1, c2, c3 := EnterCode(cfg, locals), InvokeCode(cfg, name, |args|), LeaveCode(cfg, locals);
    CallTailSplits(cfg, name, |args|, locals);
    Front(cfg, code, base, s, c1.Then(c2), c3, k);
    EnteredScope(cfg, locals, |s.m.stack|, s.m.scope, s.m.cap, s.m.w);
    Back(cfg, code, base, s, c1, c2, c3.n + k, a);
    var b := InvokeRun(cfg, code, base, a, st, args, name, c3.n + k);
    assert a.m.scope[..base.scopes] == s.m.scope[..base.scopes];
    assert st[..base.depth] == s.m.stack[..base.depth];
    s1 := a;
    if TailOf(cfg, name, args, locals, |st|, s.m.scope, s.m.cap, s.m.w).Ok? {
      Back(cfg, code, base, s, c1.Then(c2), c3, k, b);
      s1 := LeaveRun(cfg, code, base, b, locals, s.m.scope, k);
    }
  }

  /** A call once its arguments are on the stack. */
  lemma CallTailRun(cfg: Config, code: seq<Cell>, base: Catch, s: State, st: seq<Value>, args: seq<Value>,
                    name: string, locals: seq<Binding>, k: nat)
    returns (s1: State)
    requires name in cfg.methods && |cfg.methods| < COUNT_LIMIT && |args| < COUNT_LIMIT && |locals| < COUNT_LIMIT
    requires forall i | 0 <= i < |locals| :: FitsOperand(cfg, locals[i].operand) && locals[i].idx < COUNT_LIMIT
    requires base.depth <= |st| && s.m.stack == st + args
    requires Ready(cfg, code, base, s, CallTail(cfg, name, |args|, locals), k)
    ensures var r := TailOf(cfg, name, args, locals, |st|, s.m.scope, s.m.cap, s.m.w);
            Reaches(cfg, code, base, s, CallTail(cfg, name, |args|, locals), k, r,
                    if r.Ok? then s.m.(stack := st + [r.val], cap := r.cap, w := r.w) else s.m, s1)
  {
    hide BytesFrom, Exec, Invoke, EnterScope, InvokeCode, EnterCode, LeaveCode, At, CallTail, FitsOperand;
    var c1, c2, c3 := EnterCode(cfg, locals), InvokeCode(cfg, name, |args|), LeaveCode(cfg, locals);
    CallTailSplits(cfg, name, |args|, locals);
    Front(cfg, code, base, s, c1.Then(c2), c3, k);
    Front(cfg, code, base, s, c1, c2, c3.n + k);
    s1 := EnterRun(cfg, code, base, s, locals, c2.n + (c3.n + k));
    var r0 := EnterScope(cfg, locals, |s.m.stack|, s.m.scope, s.m.cap, s.m.w);
    if r0.Ok? {
      s1 := BoundCallRun(cfg, code, base, s, s1, st, args, name, locals, k);
    } else {
      Inherit(cfg, code, base, s, s, r0, TailOf(cfg, name, args, locals, |st|, s.m.scope, s.m.cap, s.m.w));
    }
  }

  /** The last two steps of `EvalCall`. */
  ghost function TailOf(cfg: Config, name: string, args: seq<Value>, locals: seq<Binding>,
                        depth: nat, scope: seq<Frame>, cap: nat, w: World): Res<Value>
  {
    var (inner, cap2, w2) :- EnterScope(cfg, locals, depth + |args|, scope, cap, w);
    Invoke(cfg, name, args, depth, inner, cap2, w2)
  }

  lemma CallTailSplits(cfg: Config, name: string, narg: nat, locals: seq<Binding>)
    ensures CallTail(cfg, name, narg, locals)
         == EnterCode(cfg, locals).Then(InvokeCode(cfg, name, narg)).Then(LeaveCode(cfg, locals))
  {
  }

  lemma EnteredScope(cfg: Config, locals: seq<Binding>, depth: nat, scope: seq<Frame>, cap: nat, w: World)
    ensures var r := EnterScope(cfg, locals, depth, scope, cap, w);
            r.Ok? ==> if locals == [] then r.val == scope
                      else |r.val| == |scope| + 1 && r.val[..|scope|] == scope
  {
  }

  // ------------------------------------------------------------------
  // Branches
  // ------------------------------------------------------------------

  /** A branch that stays inside the chunk. */
  ghost predicate BranchAt(cfg: Config, code: seq<Cell>, s: State, kind: nat, diff: nat) {
    && kind <= BRANCH_NE
    && 0 < diff < 0x20_0000
    && s.pc + diff < |code|
    && code[s.pc] == Word(BranchWord(cfg.width, kind, diff))
    && s.ninstr > 0
    && s.nsize >= BytesFrom(cfg, code, s.pc)
  }

  lemma BranchFetched(cfg: Config, code: seq<Cell>, s: State, kind: nat, diff: nat)
    requires BranchAt(cfg, code, s, kind, diff)
    ensures Step(cfg, code, s) == StepBranch(cfg, s, kind, diff)
    ensures s.nsize >= diff * cfg.width.Bytes()
    ensures s.nsize >= BytesFrom(cfg, code, s.pc + 1)
    ensures s.nsize >= BytesFrom(cfg, code, s.pc + diff)
  {
    hide BytesFrom, BranchWord, StepBranch, Decode;
    BranchRoundTrip(cfg.width, kind, diff);
    Ahead(cfg, code, s.pc, 1);
    Ahead(cfg, code, s.pc, diff);
    Fetched(cfg, code, s, BranchWord(cfg.width, kind, diff), Branch(kind, diff));
  }

  lemma JumpRun(cfg: Config, code: seq<Cell>, base: Catch, s: State, diff: nat) returns (s1: State)
    requires BranchAt(cfg, code, s, BRANCH_ALWAYS, diff)
    ensures s1 == s.(pc := s.pc + diff)
    ensures s1.nsize >= BytesFrom(cfg, code, s1.pc)
    ensures Exec(cfg, code, base, s) == Exec(cfg, code, base, s1)
  {
    hide BytesFrom, BranchWord, Exec, Step, Decode;
    BranchFetched(cfg, code, s, BRANCH_ALWAYS, diff);
    s1 := s.(pc := s.pc + diff);
    Stepped(cfg, code, base, s, s1);
  }

  /** A conditional branch on the value on top of the stack. */
  lemma CondRun(cfg: Config, code: seq<Cell>, base: Catch, s: State, kind: nat, diff: nat, st: seq<Value>, v: Value)
    returns (s1: State)
    requires BranchAt(cfg, code, s, kind, diff) && kind != BRANCH_ALWAYS
    requires s.m.stack == st + [v]
    requires base.depth <= |st| && base.scopes <= |s.m.scope|
    ensures var r := Truth(v);
            if Dangling(s.m.w, v) then Exec(cfg, code, base, s) == Stuck
            else && (r.Some? ==> Arrives(cfg, code, base, s, 0, if r.value == (kind == BRANCH_EQ) then diff else 1,
                                         s.m.(stack := st), s1)
                                 && s1.ninstr == s.ninstr)
                 && (r.None? ==> Throws(cfg, code, base, s, EINVAL, st, s.m.cap, s.m.w))
  {
    hide BytesFrom, BranchWord, Exec, Step, Truth, Dangling, Decode;
    BranchFetched(cfg, code, s, kind, diff);
    assert Drop(s.m.stack) == st;
    s1 := s;
    if Dangling(s.m.w, v) {
      GoesWild(cfg, code, base, s);
      return;
    }
    match Truth(v)
    case Some(b) =>
      s1 := s.(pc := s.pc + if b == (kind == BRANCH_EQ) then diff else 1, m := s.m.(stack := st));
      Stepped(cfg, code, base, s, s1);
    case None =>
      UnwindTo(base, s.m.(stack := st), st, s.m.scope);
      Raises(cfg, code, base, s, EINVAL, s.m.(stack := st));
  }

  lemma Raises(cfg: Config, code: seq<Cell>, base: Catch, s: State, err: int, m: Memory)
    requires s.ninstr > 0 && s.pc < |code| && Step(cfg, code, s) == Raised(err, m)
    ensures Exec(cfg, code, base, s) == Threw(err, Unwind(base, m))
  {
  }

  // ------------------------------------------------------------------
  // && and ||
  // ------------------------------------------------------------------

  lemma BitCode(cfg: Config, v: int)
    requires v == 0 || v == 1
    ensures |PushIntCode(cfg, v).cells| == 1
    ensures FitsInt(v) && Literal(cfg.width, v) == v
  {
  }

  /** The parts of a short-circuit evaluation after its first operand. */
  ghost predicate ShortAt(cfg: Config, code: seq<Cell>, p1: nat, cb: Code, kind: nat, last: int) {
    var p2 := p1 + 1 + |cb.cells|;
    && p2 + 4 < |code|
    && code[p1] == Word(BranchWord(cfg.width, kind, |cb.cells| + 4))
    && At(code, p1 + 1, cb.cells)
    && code[p2] == Word(BranchWord(cfg.width, kind, 3))
    && At(code, p2 + 1, PushIntCode(cfg, 1 - last).cells)
    && code[p2 + 2] == Word(BranchWord(cfg.width, BRANCH_ALWAYS, 2))
    && At(code, p2 + 3, PushIntCode(cfg, last).cells)
  }

  /** Where the parts of a short-circuit evaluation are. */
  lemma ShortCircuitParts(cfg: Config, code: seq<Cell>, pc: nat, a: Code, b: Code, kind: nat, last: int)
    requires last == 0 || last == 1
    requires At(code, pc, ShortCircuit(cfg, a, b, kind, last).cells)
    ensures At(code, pc, a.cells)
    ensures ShortAt(cfg, code, pc + |a.cells|, b, kind, last)
    ensures |ShortCircuit(cfg, a, b, kind, last).cells| == |a.cells| + |b.cells| + 5
  {
    hide BytesFrom, BranchWord, PushIntCode, At, Decode;
    BitCode(cfg, last);
    BitCode(cfg, 1 - last);
    assert ShortCircuit(cfg, a, b, kind, last).cells
        == a.cells + [Word(BranchWord(cfg.width, kind, |b.cells| + 4))] + b.cells
           + [Word(BranchWord(cfg.width, kind, 3))] + PushIntCode(cfg, 1 - last).cells
           + [Word(BranchWord(cfg.width, BRANCH_ALWAYS, 2))] + PushIntCode(cfg, last).cells;
    hide BytesFrom, ShortCircuit;
    Parts(code, pc, a.cells, BranchWord(cfg.width, kind, |b.cells| + 4), b.cells, BranchWord(cfg.width, kind, 3),
          PushIntCode(cfg, 1 - last).cells, BranchWord(cfg.width, BRANCH_ALWAYS, 2), PushIntCode(cfg, last).cells);
  }

  lemma Parts(code: seq<Cell>, pc: nat, a: seq<Cell>, w1: nat, b: seq<Cell>, w2: nat, x: seq<Cell>, w3: nat,
              y: seq<Cell>)
    requires At(code, pc, a + [Word(w1)] + b + [Word(w2)] + x + [Word(w3)] + y)
    ensures At(code, pc, a)
    ensures code[pc + |a|] == Word(w1) && At(code, pc + |a| + 1, b)
    ensures code[pc + |a| + 1 + |b|] == Word(w2) && At(code, pc + |a| + 1 + |b| + 1, x)
    ensures pc + |a| + 1 + |b| + 1 + |x| + 1 + |y| < |code|
    ensures code[pc + |a| + 1 + |b| + 1 + |x|] == Word(w3) && At(code, pc + |a| + 1 + |b| + 1 + |x| + 1, y)
  {
    assert pc + |a| + 1 + |b| + 1 + |x| + 1 + |y| < |code|;
    hide BytesFrom, At;
    AtSplit(code, pc, a + [Word(w1)] + b + [Word(w2)] + x + [Word(w3)], y);
    AtSplit(code, pc, a + [Word(w1)] + b + [Word(w2)] + x, [Word(w3)]);
    AtSplit(code, pc, a + [Word(w1)] + b + [Word(w2)], x);
    AtSplit(code, pc, a + [Word(w1)] + b, [Word(w2)]);
    AtSplit(code, pc, a + [Word(w1)], b);
    AtSplit(code, pc, a, [Word(w1)]);
    OneAt(code, pc + |a|, Word(w1));
    OneAt(code, pc + |a| + 1 + |b|, Word(w2));
    OneAt(code, pc + |a| + 1 + |b| + 1 + |x|, Word(w3));
  }

  lemma OneAt(code: seq<Cell>, pc: nat, c: Cell)
    requires At(code, pc, [c])
    ensures pc + 1 < |code| && code[pc] == c
  {
    assert code[pc..pc + 1][0] == c;
  }

  /** The ending of a short-circuit evaluation: from `s`, about to run the push
      of `v`, which is either the one that jumps over the other or the last. */
  lemma BitRun(cfg: Config, code: seq<Cell>, base: Catch, s: State, v: int, jumps: bool, k: nat) returns (s1: State)
    requires v == 0 || v == 1
    requires Ready(cfg, code, base, s, PushIntCode(cfg, v), if jumps then k + 1 else k)
    requires k >= 1
    requires jumps ==> s.pc + 3 < |code| && code[s.pc + 1] == Word(BranchWord(cfg.width, BRANCH_ALWAYS, 2))
    ensures s1.pc == s.pc + (if jumps then 3 else 1)
    ensures s1.m == s.m.(stack := s.m.stack + [Int(v)], cap := GrowInt(cfg, s.m.cap, |s.m.stack|))
    ensures s1.ninstr >= k && s1.nsize >= BytesFrom(cfg, code, s1.pc)
    ensures Exec(cfg, code, base, s) == Exec(cfg, code, base, s1)
  {
    hide BytesFrom, Exec, BranchWord, Decode, At, GrowInt, Literal, PushIntCode;
    BitCode(cfg, v);
    s1 := PushIntRun(cfg, code, base, s, v, if jumps then k + 1 else k);
    if jumps {
      s1 := JumpRun(cfg, code, base, s1, 2);
    }
  }

  /** From the value of the second operand to the end. */
  lemma SecondRun(cfg: Config, code: seq<Cell>, base: Catch, s: State, st: seq<Value>, v: Value,
                  kind: nat, last: int, k: nat)
    returns (s1: State)
    requires (kind == BRANCH_EQ && last == 1) || (kind == BRANCH_NE && last == 0)
    requires s.m.stack == st + [v] && base.depth <= |st| && base.scopes <= |s.m.scope|
    requires BranchAt(cfg, code, s, kind, 3) && s.ninstr >= k + 3 && k >= 1
    requires s.pc + 4 < |code|
    requires At(code, s.pc + 1, PushIntCode(cfg, 1 - last).cells)
    requires code[s.pc + 2] == Word(BranchWord(cfg.width, BRANCH_ALWAYS, 2))
    requires At(code, s.pc + 3, PushIntCode(cfg, last).cells)
    ensures var r := Truth(v);
            if Dangling(s.m.w, v) then Exec(cfg, code, base, s) == Stuck
            else && (r.Some? ==> Arrives(cfg, code, base, s, k, 4,
                                         s.m.(stack := st + [Bool(r.value)], cap := GrowInt(cfg, s.m.cap, |st|)), s1))
                 && (r.None? ==> Throws(cfg, code, base, s, EINVAL, st, s.m.cap, s.m.w))
  {
    hide BytesFrom, Exec, PushIntCode, BranchWord, At, Dangling, Decode;
    s1 := CondRun(cfg, code, base, s, kind, 3, st, v);
    if !Dangling(s.m.w, v) && Truth(v).Some? {
      var b := Truth(v).value;
      var jumps := b != (kind == BRANCH_EQ);
      assert (PushIntCode(cfg, 0).n) == 1 && PushIntCode(cfg, 1).n == 1 by { PushesOne(cfg); }
      s1 := BitRun(cfg, code, base, s1, if jumps then 1 - last else last, jumps, k);
    }
  }

  lemma PushesOne(cfg: Config)
    ensures PushIntCode(cfg, 0).n == 1 && PushIntCode(cfg, 1).n == 1
  {
  }

  /** A comparison of the two topmost values, or the negation of the topmost. */
  lemma CmpRun(cfg: Config, code: seq<Cell>, base: Catch, s: State, st: seq<Value>, vs: seq<Value>, op: nat, k: nat)
    returns (s1: State)
    requires base.depth <= |st|
    requires RELOP_EQ <= op <= RELOP_NOT && |vs| == (if op == RELOP_NOT then 1 else 2)
    requires s.m.stack == st + vs
    requires Ready(cfg, code, base, s, One(IntWord(cfg.width, OP_CMP, op)), k)
    ensures var r := if op == RELOP_NOT then Negate(vs[0]) else Compare(op, vs[1], vs[0]);
            if op != RELOP_NOT && DanglingPair(s.m.w, vs[1], vs[0]) then Exec(cfg, code, base, s) == Stuck
            else && (r.Some? ==> Arrives(cfg, code, base, s, k, 1, s.m.(stack := st + [r.value]), s1))
                 && (r.None? ==> Throws(cfg, code, base, s, EINVAL, st, s.m.cap, s.m.w))
  {
    hide BytesFrom, IntWord, Compare, Negate, DanglingPair, Exec, Decode;
    IntWordDecodes(cfg.width, OP_CMP, op);
    var bits := IntWord(cfg.width, OP_CMP, op);
    OneFetched(cfg, code, base, s, bits, k, Cmp(op));
    assert Drop(s.m.stack) == st + vs[..|vs| - 1];
    if op != RELOP_NOT {
      assert Drop(Drop(s.m.stack)) == st;
    } else {
      assert Drop(s.m.stack) == st;
    }
    s1 := s;
    if op != RELOP_NOT && DanglingPair(s.m.w, vs[1], vs[0]) {
      GoesWild(cfg, code, base, s);
      return;
    }
    match if op == RELOP_NOT then Negate(vs[0]) else Compare(op, vs[1], vs[0])
    case Some(v) => s1 := AdvanceRun(cfg, code, base, s, bits, k, s.m.(stack := st + [v]));
    case None =>
      Raises(cfg, code, base, s, EINVAL, s.m.(stack := st));
      UnwindTo(base, s.m.(stack := st), st, s.m.scope);
  }

  /** && and ||: `kind` and `last` say which of the two. */
  ghost function EvalShort(cfg: Config, or: bool, ra: Res<Value>, b: Expr, depth: nat, scope: seq<Frame>): Res<Value> {
    var (va, cap1, w1) :- ra;
    var (ta, _, _) :- Test01(va, cap1, w1);
    if ta == or then Ok(Bool(or), GrowInt(cfg, cap1, depth), w1)
    else
      var (vb, cap2, w2) :- Eval(cfg, b, depth, scope, cap1, w1);
      var (tb, _, _) :- Test01(vb, cap2, w2);
      Ok(Bool(tb), GrowInt(cfg, cap2, depth), w2)
  }

  lemma ExprRun(cfg: Config, code: seq<Cell>, base: Catch, s: State, e: Expr, k: nat) returns (s1: State)
    requires AcceptsExpr(cfg, e) && FitsExpr(cfg, e)
    requires Ready(cfg, code, base, s, ExprCode(cfg, e), k)
    ensures var r := Eval(cfg, e, |s.m.stack|, s.m.scope, s.m.cap, s.m.w);
            Does(cfg, code, base, s, ExprCode(cfg, e), k, r, if r.Ok? then [r.val] else [], s1)
    decreases e, 2
  {
    hide BytesFrom, Exec, At, EvalRef, RefCode;
    match e
    case ConstInt(i) => s1 := OperandRun(cfg, code, base, s, OpInt(i), k);
    case ConstDbl(d) => s1 := OperandRun(cfg, code, base, s, OpDbl(d), k);
    case ConstStr(t) => s1 := OperandRun(cfg, code, base, s, OpStr(t), k);
    case Ref(r) => s1 := RefRun(cfg, code, base, s, r, k);
    case Rel(op, a, b) => s1 := RelRun(cfg, code, base, s, op, a, b, k);
    case Not(a) => s1 := NotRun(cfg, code, base, s, a, k);
    case Or(a, b) => s1 := ShortRun(cfg, code, base, s, true, a, b, k);
    case And(a, b) => s1 := ShortRun(cfg, code, base, s, false, a, b, k);
    case CallExpr(name, args, locals) => s1 := CallCodeRun(cfg, code, base, s, name, args, locals, k);
  }

  /** A comparison, given the evaluation of its second operand. */
  ghost function EvalRel(cfg: Config, op: nat, rb: Res<Value>, a: Expr, depth: nat, scope: seq<Frame>): Res<Value> {
    var (vb, cap1, w1) :- rb;
    var (va, cap2, w2) :- Eval(cfg, a, depth + 1, scope, cap1, w1);
    var r := Compare(op, va, vb);
    if DanglingPair(w2, va, vb) then Bad
    else if r.Some? then Ok(r.value, cap2, w2) else Exn(EINVAL, cap2, w2)
  }

  lemma RelIs(cfg: Config, op: nat, a: Expr, b: Expr, depth: nat, scope: seq<Frame>, cap: nat, w: World)
    ensures Eval(cfg, Rel(op, a, b), depth, scope, cap, w)
         == EvalRel(cfg, op, Eval(cfg, b, depth, scope, cap, w), a, depth, scope)
    ensures ExprCode(cfg, Rel(op, a, b))
         == ExprCode(cfg, b).Then(ExprCode(cfg, a)).Then(One(IntWord(cfg.width, OP_CMP, op)))
  {
    hide Compare, DanglingPair, IntWord;
  }

  lemma RelRun(cfg: Config, code: seq<Cell>, base: Catch, s: State, op: nat, a: Expr, b: Expr, k: nat)
    returns (s1: State)
    requires RELOP_EQ <= op <= RELOP_GE
    requires AcceptsExpr(cfg, a) && FitsExpr(cfg, a) && AcceptsExpr(cfg, b) && FitsExpr(cfg, b)
    requires Ready(cfg, code, base, s, ExprCode(cfg, Rel(op, a, b)), k)
    ensures var r := Eval(cfg, Rel(op, a, b), |s.m.stack|, s.m.scope, s.m.cap, s.m.w);
            Does(cfg, code, base, s, ExprCode(cfg, Rel(op, a, b)), k, r, if r.Ok? then [r.val] else [], s1)
    decreases Rel(op, a, b), 1
  {
    hide BytesFrom, Exec, IntWord, Compare, DanglingPair, At, Decode, Eval, ExprCode, AcceptsExpr, FitsExpr;
    var c1, c2, c3 := ExprCode(cfg, b), ExprCode(cfg, a), One(IntWord(cfg.width, OP_CMP, op));
    RelIs(cfg, op, a, b, |s.m.stack|, s.m.scope, s.m.cap, s.m.w);
    var r := Eval(cfg, Rel(op, a, b), |s.m.stack|, s.m.scope, s.m.cap, s.m.w);
    Front(cfg, code, base, s, c1.Then(c2), c3, k);
    Front(cfg, code, base, s, c1, c2, c3.n + k);
    var x := ExprRun(cfg, code, base, s, b, c2.n + (c3.n + k));
    var rb := Eval(cfg, b, |s.m.stack|, s.m.scope, s.m.cap, s.m.w);
    s1 := x;
    if rb.Ok? {
      Back(cfg, code, base, s, c1, c2, c3.n + k, x);
      var y := ExprRun(cfg, code, base, x, a, c3.n + k);
      var ra := Eval(cfg, a, |x.m.stack|, x.m.scope, x.m.cap, x.m.w);
      s1 := y;
      if ra.Ok? {
        Back(cfg, code, base, s, c1.Then(c2), c3, k, y);
        assert y.m.stack == s.m.stack + [rb.val, ra.val];
        s1 := CmpRun(cfg, code, base, y, s.m.stack, [rb.val, ra.val], op, k);
      } else {
        Inherit(cfg, code, base, s, x, ra, r);
      }
    } else {
      Inherit(cfg, code, base, s, s, rb, r);
    }
  }

  lemma NotRun(cfg: Config, code: seq<Cell>, base: Catch, s: State, a: Expr, k: nat)
    returns (s1: State)
    requires AcceptsExpr(cfg, a) && FitsExpr(cfg, a)
    requires Ready(cfg, code, base, s, ExprCode(cfg, Not(a)), k)
    ensures var r := Eval(cfg, Not(a), |s.m.stack|, s.m.scope, s.m.cap, s.m.w);
            Does(cfg, code, base, s, ExprCode(cfg, Not(a)), k, r, if r.Ok? then [r.val] else [], s1)
    decreases Not(a), 1
  {
    hide BytesFrom, Exec, IntWord, Negate, At, Decode;
    var c1, c2 := ExprCode(cfg, a), One(IntWord(cfg.width, OP_CMP, RELOP_NOT));
    Front(cfg, code, base, s, c1, c2, k);
    var x := ExprRun(cfg, code, base, s, a, c2.n + k);
    var ra := Eval(cfg, a, |s.m.stack|, s.m.scope, s.m.cap, s.m.w);
    s1 := x;
    if ra.Ok? {
      Back(cfg, code, base, s, c1, c2, k, x);
      s1 := CmpRun(cfg, code, base, x, s.m.stack, [ra.val], RELOP_NOT, k);
    } else {
      Inherit(cfg, code, base, s, s, ra, Eval(cfg, Not(a), |s.m.stack|, s.m.scope, s.m.cap, s.m.w));
    }
  }

  lemma EvalShortIs(cfg: Config, or: bool, a: Expr, b: Expr, depth: nat, scope: seq<Frame>, cap: nat, w: World)
    ensures Eval(cfg, if or then Or(a, b) else And(a, b), depth, scope, cap, w)
         == EvalShort(cfg, or, Eval(cfg, a, depth, scope, cap, w), b, depth, scope)
  {
  }

  lemma EvalShortFails(cfg: Config, or: bool, ra: Res<Value>, b: Expr, depth: nat, scope: seq<Frame>)
    ensures !ra.Ok? ==> EvalShort(cfg, or, ra, b, depth, scope) == ra
  {
  }

  /** From the value of the first operand to the end. */
  lemma ShortRest(cfg: Config, code: seq<Cell>, base: Catch, s: State, x: State, or: bool, va: Value, b: Expr, k: nat)
    returns (s1: State)
    requires AcceptsExpr(cfg, b) && FitsExpr(cfg, b)
    requires |ExprCode(cfg, b).cells| + 4 < 0x20_0000
    requires base.depth <= |s.m.stack| && base.scopes <= |s.m.scope| && k >= 1
    requires x.m.stack == s.m.stack + [va] && x.m.scope == s.m.scope
    requires x.ninstr >= ExprCode(cfg, b).n + 4 + k && x.nsize >= BytesFrom(cfg, code, x.pc)
    requires ShortAt(cfg, code, x.pc, ExprCode(cfg, b), if or then BRANCH_EQ else BRANCH_NE, if or then 1 else 0)
    requires Exec(cfg, code, base, s) == Exec(cfg, code, base, x)
    ensures var r := EvalShort(cfg, or, Ok(va, x.m.cap, x.m.w), b, |s.m.stack|, s.m.scope);
            Reaches(cfg, code, base, s, Code(Fills(x.pc + |ExprCode(cfg, b).cells| + 5 - s.pc), 0), k, r,
                    if r.Ok? then s.m.(stack := s.m.stack + [r.val], cap := r.cap, w := r.w) else s.m, s1)
    requires x.pc >= s.pc
    decreases b, 3
  {
    hide BytesFrom, Exec, BranchWord, PushIntCode, Truth, Dangling, Eval, ExprCode, AcceptsExpr, FitsExpr, At, Decode;
    var cb := ExprCode(cfg, b);
    var kind, last := if or then BRANCH_EQ else BRANCH_NE, if or then 1 else 0;
    var r := EvalShort(cfg, or, Ok(va, x.m.cap, x.m.w), b, |s.m.stack|, s.m.scope);
    s1 := CondRun(cfg, code, base, x, kind, |cb.cells| + 4, s.m.stack, va);
    var y := s1;
    if !Dangling(x.m.w, va) && Truth(va).Some? {
      if Truth(va).value == or {
        PushesOne(cfg);
        s1 := BitRun(cfg, code, base, y, last, false, k);
      } else {
        var z := ExprRun(cfg, code, base, y, b, 4 + k);
        var rb := Eval(cfg, b, |y.m.stack|, y.m.scope, y.m.cap, y.m.w);
        s1 := z;
        if rb.Ok? {
          s1 := SecondRun(cfg, code, base, z, s.m.stack, rb.val, kind, last, k);
        } else {
          Inherit(cfg, code, base, s, y, rb, r);
        }
      }
    }
  }

  lemma ShortReady(cfg: Config, code: seq<Cell>, base: Catch, s: State, c: Code, ca: Code, cb: Code,
                   kind: nat, last: int, k: nat)
    requires Ready(cfg, code, base, s, c, k)
    requires c == ShortCircuit(cfg, ca, cb, kind, last) && (last == 0 || last == 1)
    ensures Ready(cfg, code, base, s, ca, cb.n + 5 + k)
    ensures ShortAt(cfg, code, s.pc + |ca.cells|, cb, kind, last)
    ensures |c.cells| == |ca.cells| + |cb.cells| + 5
  {
    hide *;
    ReadyAt(cfg, code, base, s, c, k);
    ShortCount(cfg, ca, cb, kind, last);
    ShortCircuitParts(cfg, code, s.pc, ca, cb, kind, last);
    ReadyAgain(cfg, code, base, s, c, k, ca, cb.n + 5 + k);
  }

  lemma ReadyAt(cfg: Config, code: seq<Cell>, base: Catch, s: State, c: Code, k: nat)
    requires Ready(cfg, code, base, s, c, k)
    ensures At(code, s.pc, c.cells) && k >= 1
  {
  }

  lemma ReadyAgain(cfg: Config, code: seq<Cell>, base: Catch, s: State, c: Code, k: nat, c1: Code, k1: nat)
    requires Ready(cfg, code, base, s, c, k)
    requires At(code, s.pc, c1.cells) && c1.n + k1 == c.n + k && k1 >= 1
    ensures Ready(cfg, code, base, s, c1, k1)
  {
  }

  lemma ShortCodeIs(cfg: Config, or: bool, a: Expr, b: Expr)
    ensures ExprCode(cfg, if or then Or(a, b) else And(a, b))
         == ShortCircuit(cfg, ExprCode(cfg, a), ExprCode(cfg, b),
                         if or then BRANCH_EQ else BRANCH_NE, if or then 1 else 0)
  {
    hide BytesFrom, ShortCircuit;
  }

  lemma ShortRun(cfg: Config, code: seq<Cell>, base: Catch, s: State, or: bool, a: Expr, b: Expr, k: nat)
    returns (s1: State)
    requires AcceptsExpr(cfg, a) && FitsExpr(cfg, a) && AcceptsExpr(cfg, b) && FitsExpr(cfg, b)
    requires |ExprCode(cfg, b).cells| + 4 < 0x20_0000
    requires Ready(cfg, code, base, s, ExprCode(cfg, if or then Or(a, b) else And(a, b)), k)
    ensures var e := if or then Or(a, b) else And(a, b);
            var r := Eval(cfg, e, |s.m.stack|, s.m.scope, s.m.cap, s.m.w);
            Does(cfg, code, base, s, ExprCode(cfg, e), k, r, if r.Ok? then [r.val] else [], s1)
    decreases (if or then Or(a, b) else And(a, b)), 1
  {
    hide BytesFrom, Exec, BranchWord, PushIntCode, ExprCode, ShortCircuit, Eval, EvalShort, At, ShortAt, FitsExpr,
         AcceptsExpr, Decode;
    var ra := Eval(cfg, a, |s.m.stack|, s.m.scope, s.m.cap, s.m.w);
    EvalShortIs(cfg, or, a, b, |s.m.stack|, s.m.scope, s.m.cap, s.m.w);
    ShortCodeIs(cfg, or, a, b);
    ShortReady(cfg, code, base, s, ExprCode(cfg, if or then Or(a, b) else And(a, b)), ExprCode(cfg, a),
               ExprCode(cfg, b),
               if or then BRANCH_EQ else BRANCH_NE, if or then 1 else 0, k);
    var x := ExprRun(cfg, code, base, s, a, ExprCode(cfg, b).n + 5 + k);
    s1 := x;
    if ra.Ok? {
      s1 := ShortRest(cfg, code, base, s, x, or, ra.val, b, k);
    } else {
      EvalShortFails(cfg, or, ra, b, |s.m.stack|, s.m.scope);
      Inherit(cfg, code, base, s, s, ra, EvalShort(cfg, or, ra, b, |s.m.stack|, s.m.scope));
    }
  }

  lemma ShortCount(cfg: Config, a: Code, b: Code, kind: nat, last: int)
    ensures ShortCircuit(cfg, a, b, kind, last).n == a.n + b.n + 5
  {
  }

  lemma {:induction false} ArgsRun(cfg: Config, code: seq<Cell>, base: Catch, s: State, args: seq<Expr>, k: nat)
    returns (s1: State)
    requires forall i | 0 <= i < |args| :: AcceptsExpr(cfg, args[i]) && FitsExpr(cfg, args[i])
    requires Ready(cfg, code, base, s, ArgsCode(cfg, args), k)
    ensures var r := EvalArgs(cfg, args, |s.m.stack|, s.m.scope, s.m.cap, s.m.w);
            && (r.Ok? ==> |r.val| == |args|)
            && Does(cfg, code, base, s, ArgsCode(cfg, args), k, r, if r.Ok? then r.val else [], s1)
    decreases args, 0
  {
    hide BytesFrom, Exec, At, Eval, ExprCode, FitsExpr, AcceptsExpr;
    s1 := s;
    if args != [] {
      var n := |args| - 1;
      var c1, c2 := ArgsCode(cfg, args[..n]), ExprCode(cfg, args[n]);
      var r := EvalArgs(cfg, args, |s.m.stack|, s.m.scope, s.m.cap, s.m.w);
      Front(cfg, code, base, s, c1, c2, k);
      var x := ArgsRun(cfg, code, base, s, args[..n], c2.n + k);
      var r0 := EvalArgs(cfg, args[..n], |s.m.stack|, s.m.scope, s.m.cap, s.m.w);
      s1 := x;
      if r0.Ok? {
        Back(cfg, code, base, s, c1, c2, k, x);
        var y := ExprRun(cfg, code, base, x, args[n], k);
        var r1 := Eval(cfg, args[n], |x.m.stack|, x.m.scope, x.m.cap, x.m.w);
        s1 := y;
        if r1.Ok? {
          assert y.m.stack == s.m.stack + (r0.val + [r1.val]);
        } else {
          Inherit(cfg, code, base, s, x, r1, r);
        }
      } else {
        Inherit(cfg, code, base, s, s, r0, r);
      }
    }
  }

  lemma CallCodeRun(cfg: Config, code: seq<Cell>, base: Catch, s: State, name: string, args: seq<Expr>,
                    locals: seq<Binding>, k: nat)
    returns (s1: State)
    requires AcceptsCall(cfg, name, args) && FitsCall(cfg, args, locals)
    requires Ready(cfg, code, base, s, CallCode(cfg, name, args, locals), k)
    ensures var r := EvalCall(cfg, name, args, locals, |s.m.stack|, s.m.scope, s.m.cap, s.m.w);
            Does(cfg, code, base, s, CallCode(cfg, name, args, locals), k, r, if r.Ok? then [r.val] else [], s1)
    decreases args, 1
  {
    hide BytesFrom, Exec, At, CallTail, EnterScope, Invoke;
    var c1, c2 := ArgsCode(cfg, args), CallTail(cfg, name, |args|, locals);
    var r := EvalCall(cfg, name, args, locals, |s.m.stack|, s.m.scope, s.m.cap, s.m.w);
    Front(cfg, code, base, s, c1, c2, k);
    var x := ArgsRun(cfg, code, base, s, args, c2.n + k);
    var r0 := EvalArgs(cfg, args, |s.m.stack|, s.m.scope, s.m.cap, s.m.w);
    s1 := x;
    if r0.Ok? {
      Back(cfg, code, base, s, c1, c2, k, x);
      s1 := CallTailRun(cfg, code, base, x, s.m.stack, r0.val, name, locals, k);
      if !r.Ok? {
        Inherit(cfg, code, base, s, x, TailOf(cfg, name, r0.val, locals, |s.m.stack|, x.m.scope, x.m.cap, x.m.w), r);
      }
    } else {
      Inherit(cfg, code, base, s, s, r0, r);
    }
  }

  // ------------------------------------------------------------------
  // Assignments
  // ------------------------------------------------------------------

  ghost function NamesOnStack(names: seq<string>): seq<Value> {
    seq(|names|, i requires 0 <= i < |names| => Str(names[i]))
  }

  lemma {:induction false} NamesRun(cfg: Config, code: seq<Cell>, base: Catch, s: State, names: seq<string>, k: nat)
    returns (s1: State)
    requires forall i | 0 <= i < |names| :: FitsStr(cfg, names[i])
    requires Ready(cfg, code, base, s, NamesCode(cfg, names), k)
    ensures Past(cfg, code, s, NamesCode(cfg, names), k, NamesOnStack(names),
                 GrowNames(cfg, names, s.m.cap, |s.m.stack|), s.m.w, s1)
    ensures Exec(cfg, code, base, s) == Exec(cfg, code, base, s1)
  {
    hide BytesFrom, Exec, PushTextCode, At;
    s1 := s;
    if names != [] {
      var n := |names| - 1;
      var c1, c2 := NamesCode(cfg, names[..n]), PushStrCode(cfg, names[n]);
      Front(cfg, code, base, s, c1, c2, k);
      var a := NamesRun(cfg, code, base, s, names[..n], c2.n + k);
      Back(cfg, code, base, s, c1, c2, k, a);
      s1 := PushTextRun(cfg, code, base, a, false, names[n], k);
      assert NamesOnStack(names) == NamesOnStack(names[..n]) + [Str(names[n])];
    }
  }

  lemma {:induction false} ReversedFront(names: seq<string>)
    requires names != []
    ensures Reversed(names) == Reversed(names[1..]) + [names[0]]
  {
    if |names| > 1 {
      var init := names[..|names| - 1];
      ReversedFront(init);
      assert names[1..][..|names| - 2] == init[1..];
    }
  }

  lemma {:induction false} PopNamesIs(st: seq<Value>, names: seq<string>)
    ensures PopNames(|names|, st + NamesOnStack(names)) == Names(Reversed(names), st)
    decreases |names|
  {
    if names == [] {
      assert st + NamesOnStack(names) == st;
    } else {
      ReversedFront(names);
      var st1 := st + [Str(names[0])];
      assert st + NamesOnStack(names) == st1 + NamesOnStack(names[1..]);
      PopNamesIs(st1, names[1..]);
      assert Drop(st1) == st;
    }
  }

  /** An instruction that comes to an effect on the facts. */
  lemma EffectRun(cfg: Config, code: seq<Cell>, base: Catch, s: State, bits: nat, st: seq<Value>, e: Effect<()>, k: nat)
    returns (s1: State)
    requires base.depth <= |st|
    requires Ready(cfg, code, base, s, One(bits), k)
    requires s.ninstr > 0 && s.pc < |code|
    requires Step(cfg, code, s) == AfterEffect(cfg, s, st, e)
    ensures && (e.Done? ==> Arrives(cfg, code, base, s, k, 1, s.m.(stack := st, w := e.w), s1))
            && (e.Error? ==> Throws(cfg, code, base, s, e.err, st, s.m.cap, e.w))
            && (e.Undefined? ==> Exec(cfg, code, base, s) == Stuck)
  {
    hide BytesFrom, Exec, Step;
    s1 := s;
    match e
    case Done(_, w) => s1 := AdvanceRun(cfg, code, base, s, bits, k, s.m.(stack := st, w := w));
    case Error(err, w) =>
      Raises(cfg, code, base, s, err, s.m.(stack := st, w := w));
      UnwindTo(base, s.m.(stack := st, w := w), st, s.m.scope);
    case Undefined => GoesWild(cfg, code, base, s);
  }

  /** What the last instruction of an assignment does. */
  ghost function StoreEffect(kind: AssignKind, v: Value, dst: Global, names: seq<string>, field: Option<string>,
                             w: World)
    : Effect<()>
  {
    if field.Some? && names == [] then SetFieldOf(w, dst, field.value, v)
    else if !v.Glob? then Error(ENOENT, w)
    else match kind
         case Replacing =>
           (match ReplaceName(w, dst)
            case None => Undefined
            case Some(name) => ReplaceAll(w, v.g.facts, dst.facts, Reversed(names), name))
         case _ =>
           if names == [] then SetGlobal(w, v.g, dst)
           else UpdateAll(w, v.g.facts, dst.facts, Reversed(names), kind.Partial?)
  }

  /** The last instruction of an assignment. */
  ghost function StoreWord(cfg: Config, kind: AssignKind, names: seq<string>, field: Option<string>): nat {
    if names != [] then
      if kind.Replacing? then ReplaceWord(cfg.width, |names|) else UpdateWord(cfg.width, |names|, kind.Partial?)
    else if field.Some? then IntWord(cfg.width, OP_SET, 1)
    else if kind.Replacing? then ReplaceWord(cfg.width, 0) else IntWord(cfg.width, OP_SET, 0)
  }

  ghost function StoreOperands(names: seq<string>, field: Option<string>): seq<string> {
    if names == [] && field.Some? then [field.value] else names
  }

  lemma SetFieldStep(cfg: Config, code: seq<Cell>, base: Catch, s: State, st: seq<Value>, v: Value, dst: Global,
                     field: string, k: nat)
    requires s.m.stack == st + [v, Glob(dst), Str(field)]
    requires Ready(cfg, code, base, s, One(IntWord(cfg.width, OP_SET, 1)), k)
    ensures s.ninstr > 0 && s.pc < |code|
    ensures Step(cfg, code, s) == AfterEffect(cfg, s, st, SetFieldOf(s.m.w, dst, field, v))
  {
    hide BytesFrom, IntWord, SetFieldOf, AfterEffect, Decode;
    IntWordDecodes(cfg.width, OP_SET, 1);
    OneFetched(cfg, code, base, s, IntWord(cfg.width, OP_SET, 1), k, Instr.SetField);
    assert Drop(s.m.stack) == st + [v, Glob(dst)];
    assert Drop(Drop(s.m.stack)) == st + [v];
    assert Drop(Drop(Drop(s.m.stack))) == st;
  }

  lemma SetStep(cfg: Config, code: seq<Cell>, base: Catch, s: State, st: seq<Value>, v: Value, dst: Global, k: nat)
    requires s.m.stack == st + [v, Glob(dst)]
    requires Ready(cfg, code, base, s, One(IntWord(cfg.width, OP_SET, 0)), k)
    ensures s.ninstr > 0 && s.pc < |code|
    ensures Step(cfg, code, s)
         == if v.Glob? then AfterEffect(cfg, s, st, SetGlobal(s.m.w, v.g, dst))
            else Raised(ENOENT, s.m.(stack := st + [v]))
  {
    hide BytesFrom, IntWord, SetGlobal, AfterEffect, Decode;
    IntWordDecodes(cfg.width, OP_SET, 0);
    OneFetched(cfg, code, base, s, IntWord(cfg.width, OP_SET, 0), k, SetVar);
    assert Drop(s.m.stack) == st + [v];
    assert Drop(Drop(s.m.stack)) == st;
  }

  /** UPDATE and REPLACE find their globals below the names of the fields. */
  lemma Operands(st: seq<Value>, v: Value, dst: Global, names: seq<string>)
    ensures var full, n := st + [v, Glob(dst)] + NamesOnStack(names), |names|;
            && PeekGlobal(full, n) == Some(dst)
            && PeekGlobal(full, n + 1) == (if v.Glob? then Some(v.g) else None)
            && PopNames(n, full) == Names(Reversed(names), st + [v, Glob(dst)])
            && Drop(Drop(st + [v, Glob(dst)])) == st
  {
    hide BytesFrom, PopNames, Reversed;
    PopNamesIs(st + [v, Glob(dst)], names);
    var full, n := st + [v, Glob(dst)] + NamesOnStack(names), |names|;
    assert full[|full| - 1 - n] == Glob(dst) && full[|full| - 2 - n] == v;
    assert Drop(st + [v, Glob(dst)]) == st + [v];
  }

  lemma UpdateStep(cfg: Config, code: seq<Cell>, base: Catch, s: State, st: seq<Value>, v: Value, dst: Global,
                   names: seq<string>, partial: bool, k: nat)
    requires |names| < COUNT_LIMIT && |names| / ASSIGN_PARTIAL % 2 == 0
    requires s.m.stack == st + [v, Glob(dst)] + NamesOnStack(names)
    requires Ready(cfg, code, base, s, One(UpdateWord(cfg.width, |names|, partial)), k)
    ensures s.ninstr > 0 && s.pc < |code|
    ensures Step(cfg, code, s)
         == if v.Glob? then AfterEffect(cfg, s, st, UpdateAll(s.m.w, v.g.facts, dst.facts, Reversed(names), partial))
            else Raised(ENOENT, s.m)
  {
    hide BytesFrom, UpdateWord, UpdateAll, AfterEffect, PopNames, PeekGlobal, NamesOnStack, Reversed, Decode;
    UpdateRoundTrip(cfg.width, |names|, partial);
    OneFetched(cfg, code, base, s, UpdateWord(cfg.width, |names|, partial), k, Update(|names|, partial));
    Operands(st, v, dst, names);
  }

  lemma ReplaceStep(cfg: Config, code: seq<Cell>, base: Catch, s: State, st: seq<Value>, v: Value, dst: Global,
                    names: seq<string>, k: nat)
    requires |names| < COUNT_LIMIT
    requires s.m.stack == st + [v, Glob(dst)] + NamesOnStack(names)
    requires Ready(cfg, code, base, s, One(ReplaceWord(cfg.width, |names|)), k)
    ensures s.ninstr > 0 && s.pc < |code|
    ensures Step(cfg, code, s)
         == if !v.Glob? then Raised(ENOENT, s.m)
            else match ReplaceName(s.m.w, dst)
                 case None => Wild
                 case Some(name) =>
                   AfterEffect(cfg, s, st, ReplaceAll(s.m.w, v.g.facts, dst.facts, Reversed(names), name))
  {
    hide *;
    ReplaceFetched(cfg, code, base, s, |names|, k);
    StepReplaceIs(cfg, s, st, v, dst, names);
  }

  lemma ReplaceFetched(cfg: Config, code: seq<Cell>, base: Catch, s: State, n: nat, k: nat)
    requires n < COUNT_LIMIT
    requires Ready(cfg, code, base, s, One(ReplaceWord(cfg.width, n)), k)
    ensures s.ninstr > 0 && s.pc < |code|
    ensures Step(cfg, code, s) == StepReplace(cfg, s, n)
  {
    hide BytesFrom, ReplaceWord, StepReplace, Decode;
    ReplaceDecodes(cfg.width, n);
    OneFetched(cfg, code, base, s, ReplaceWord(cfg.width, n), k, Replace(n));
  }

  lemma StepReplaceIs(cfg: Config, s: State, st: seq<Value>, v: Value, dst: Global, names: seq<string>)
    requires s.m.stack == st + [v, Glob(dst)] + NamesOnStack(names)
    ensures StepReplace(cfg, s, |names|)
         == if !v.Glob? then Raised(ENOENT, s.m)
            else match ReplaceName(s.m.w, dst)
                 case None => Wild
                 case Some(name) =>
                   AfterEffect(cfg, s, st, ReplaceAll(s.m.w, v.g.facts, dst.facts, Reversed(names), name))
  {
    hide BytesFrom, ReplaceAll, AfterEffect, PopNames, PeekGlobal, NamesOnStack, Reversed, ReplaceName;
    Operands(st, v, dst, names);
  }

  /** The last instruction of an assignment, whichever it is. */
  lemma StoreWordRun(cfg: Config, code: seq<Cell>, base: Catch, s: State, st: seq<Value>, kind: AssignKind, v: Value,
                     dst: Global, names: seq<string>, field: Option<string>, k: nat)
    returns (s1: State)
    requires |names| < COUNT_LIMIT && FitsStore(kind, |names|) && base.depth <= |st|
    requires names != [] ==> field.None?
    requires s.m.stack == st + [v, Glob(dst)] + NamesOnStack(StoreOperands(names, field))
    requires kind.Partial? ==> names != []
    requires Ready(cfg, code, base, s, One(StoreWord(cfg, kind, names, field)), k)
    ensures var r := StoreEffect(kind, v, dst, names, field, s.m.w);
            && (r.Done? ==> Arrives(cfg, code, base, s, k, 1, s.m.(stack := st, w := r.w), s1))
            && (r.Error? ==> Throws(cfg, code, base, s, r.err, st, s.m.cap, r.w))
            && (r.Undefined? ==> Exec(cfg, code, base, s) == Stuck)
  {
    hide BytesFrom, Exec, Step, IntWord, UpdateWord, ReplaceWord, AfterEffect, SetFieldOf, SetGlobal, UpdateAll,
         ReplaceAll, Reversed, ReplaceName, Decode;
    var w := s.m.w;
    var e := StoreEffect(kind, v, dst, names, field, w);
    var bits := StoreWord(cfg, kind, names, field);
    s1 := s;
    if names == [] && field.Some? {
      assert NamesOnStack([field.value]) == [Str(field.value)];
      assert s.m.stack == st + [v, Glob(dst), Str(field.value)];
      SetFieldStep(cfg, code, base, s, st, v, dst, field.value, k);
      s1 := EffectRun(cfg, code, base, s, bits, st, e, k);
    } else if names == [] && !kind.Replacing? {
      assert s.m.stack == st + [v, Glob(dst)];
      SetStep(cfg, code, base, s, st, v, dst, k);
      if v.Glob? {
        s1 := EffectRun(cfg, code, base, s, bits, st, e, k);
      } else {
        Raises(cfg, code, base, s, ENOENT, s.m.(stack := st + [v]));
        UnwindTo(base, s.m.(stack := st + [v]), st, s.m.scope);
      }
    } else {
      assert st <= s.m.stack;
      if kind.Replacing? {
        ReplaceStep(cfg, code, base, s, st, v, dst, names, k);
      } else {
        UpdateStep(cfg, code, base, s, st, v, dst, names, kind.Partial?, k);
      }
      if !v.Glob? {
        Raises(cfg, code, base, s, ENOENT, s.m);
        UnwindTo(base, s.m, st, s.m.scope);
      } else if kind.Replacing? && ReplaceName(w, dst).None? {
        GoesWild(cfg, code, base, s);
      } else {
        s1 := EffectRun(cfg, code, base, s, bits, st, e, k);
      }
    }
  }

  ghost function OperandsCode(cfg: Config, names: seq<string>, field: Option<string>): Code {
    if names == [] && field.Some? then PushStrCode(cfg, field.value) else NamesCode(cfg, names)
  }

  lemma StoreCodeIs(cfg: Config, kind: AssignKind, l: VarRef)
    requires AcceptsStore(kind, l)
    ensures var names := MatchFields(l.selectors);
            StoreCode(cfg, kind, l) == FilteredCode(cfg, l.variable.name, l.selectors)
                                       .Then(OperandsCode(cfg, names, l.field))
                                       .Then(One(StoreWord(cfg, kind, names, l.field)))
  {
    hide BytesFrom, FilteredCode, PushTextCode, IntWord, ReplaceWord, UpdateWord, MatchFields;
  }

  lemma OperandsRun(cfg: Config, code: seq<Cell>, base: Catch, s: State, names: seq<string>, field: Option<string>,
                    k: nat)
    returns (s1: State)
    requires forall i | 0 <= i < |names| :: FitsStr(cfg, names[i])
    requires field.Some? ==> FitsStr(cfg, field.value)
    requires Ready(cfg, code, base, s, OperandsCode(cfg, names, field), k)
    ensures Past(cfg, code, s, OperandsCode(cfg, names, field), k, NamesOnStack(StoreOperands(names, field)),
                 if names == [] && field.Some? then GrowStr(cfg, s.m.cap, |s.m.stack|, field.value)
                 else GrowNames(cfg, names, s.m.cap, |s.m.stack|), s.m.w, s1)
    ensures Exec(cfg, code, base, s) == Exec(cfg, code, base, s1)
  {
    hide BytesFrom, Exec, PushTextCode, At;
    if names == [] && field.Some? {
      s1 := PushTextRun(cfg, code, base, s, false, field.value, k);
      assert NamesOnStack([field.value]) == [Str(field.value)];
    } else {
      s1 := NamesRun(cfg, code, base, s, names, k);
    }
  }

  lemma {:induction false} MatchFieldsFit(cfg: Config, sels: seq<Selector>)
    requires forall i | 0 <= i < |sels| :: FitsStr(cfg, sels[i].field)
    ensures forall i | 0 <= i < |MatchFields(sels)| :: FitsStr(cfg, MatchFields(sels)[i])
  {
    if sels != [] {
      MatchFieldsFit(cfg, sels[..|sels| - 1]);
    }
  }

  lemma StoreIs(cfg: Config, kind: AssignKind, l: VarRef, v: Value, depth: nat, scope: seq<Frame>, cap: nat, w: World)
    requires AcceptsStore(kind, l)
    ensures var names := MatchFields(l.selectors);
            Store(cfg, kind, l, v, depth, scope, cap, w) == (
              match EvalFiltered(cfg, l.variable.name, l.selectors, depth + 1, scope, cap, w)
              case Ok(dst, cap1, w1) =>
                FromEffect(StoreEffect(kind, v, dst, names, l.field, w1),
                           if names == [] && l.field.Some? then GrowStr(cfg, cap1, depth + 2, l.field.value)
                           else GrowNames(cfg, names, cap1, depth + 2))
              case other => other.PropagateFailure())
  {
    hide BytesFrom, EvalFiltered, MatchFields, SetFieldOf, ReplaceAll, UpdateAll, SetGlobal, GrowStr, GrowNames,
         Reversed, ReplaceName;
  }

  lemma StoreRun(cfg: Config, code: seq<Cell>, base: Catch, s: State, st: seq<Value>, v: Value, kind: AssignKind,
                 l: VarRef, k: nat)
    returns (s1: State)
    requires AcceptsStore(kind, l) && FitsRef(cfg, l) && FitsStore(kind, |MatchFields(l.selectors)|)
    requires base.depth <= |st| && s.m.stack == st + [v]
    requires Ready(cfg, code, base, s, StoreCode(cfg, kind, l), k)
    ensures var r := Store(cfg, kind, l, v, |st|, s.m.scope, s.m.cap, s.m.w);
            Reaches(cfg, code, base, s, StoreCode(cfg, kind, l), k, r,
                    if r.Ok? then s.m.(stack := st, cap := r.cap, w := r.w) else s.m, s1)
  {
    hide BytesFrom, Exec, FilteredCode, EvalFiltered, StoreCode, MatchFields, StoreWord, StoreEffect, Store,
         OperandsCode, StoreOperands, NamesOnStack, GrowStr, GrowNames, At;
    var names := MatchFields(l.selectors);
    var c1, c2, c3 := FilteredCode(cfg, l.variable.name, l.selectors), OperandsCode(cfg, names, l.field),
                      One(StoreWord(cfg, kind, names, l.field));
    var r := Store(cfg, kind, l, v, |st|, s.m.scope, s.m.cap, s.m.w);
    StoreCodeIs(cfg, kind, l);
    StoreIs(cfg, kind, l, v, |st|, s.m.scope, s.m.cap, s.m.w);
    MatchFieldsFit(cfg, l.selectors);
    CountBound(l.selectors);
    Front(cfg, code, base, s, c1.Then(c2), c3, k);
    Front(cfg, code, base, s, c1, c2, c3.n + k);
    var a := FilteredRun(cfg, code, base, s, l.variable.name, l.selectors, c2.n + (c3.n + k));
    var r0 := EvalFiltered(cfg, l.variable.name, l.selectors, |s.m.stack|, s.m.scope, s.m.cap, s.m.w);
    s1 := a;
    if r0.Ok? {
      Back(cfg, code, base, s, c1, c2, c3.n + k, a);
      var b := OperandsRun(cfg, code, base, a, names, l.field, c3.n + k);
      Back(cfg, code, base, s, c1.Then(c2), c3, k, b);
      assert b.m.stack == st + [v, Glob(r0.val)] + NamesOnStack(StoreOperands(names, l.field));
      s1 := StoreWordRun(cfg, code, base, b, st, kind, v, r0.val, names, l.field, k);
      assert st[..base.depth] == s.m.stack[..base.depth];
    } else {
      Inherit(cfg, code, base, s, s, r0, r);
    }
  }

  // ------------------------------------------------------------------
  // Statements
  // ------------------------------------------------------------------

  lemma PopRun(cfg: Config, code: seq<Cell>, base: Catch, s: State, st: seq<Value>, v: Value, k: nat)
    returns (s1: State)
    requires s.m.stack == st + [v]
    requires Ready(cfg, code, base, s, One(IntWord(cfg.width, OP_POP, 1)), k)
    ensures Reaches<()>(cfg, code, base, s, One(IntWord(cfg.width, OP_POP, 1)), k, Ok((), s.m.cap, s.m.w),
                        s.m.(stack := st), s1)
  {
    hide BytesFrom, IntWord, Decode;
    IntWordDecodes(cfg.width, OP_POP, 1);
    OneFetched(cfg, code, base, s, IntWord(cfg.width, OP_POP, 1), k, PopDiscard);
    assert Drop(s.m.stack) == st;
    s1 := AdvanceRun(cfg, code, base, s, IntWord(cfg.width, OP_POP, 1), k, s.m.(stack := st));
  }

  lemma StmtRun(cfg: Config, code: seq<Cell>, base: Catch, s: State, t: Stmt, k: nat) returns (s1: State)
    requires AcceptsStmt(cfg, t) && FitsStmt(cfg, t)
    requires Ready(cfg, code, base, s, StmtCode(cfg, t), k)
    ensures var r := Run(cfg, t, |s.m.stack|, s.m.scope, s.m.cap, s.m.w);
            Does(cfg, code, base, s, StmtCode(cfg, t), k, r, [], s1)
    decreases t, 2
  {
    match t
    case AssignStmt(kind, l, e) => s1 := AssignRun(cfg, code, base, s, kind, l, e, k);
    case CallStmt(name, args, locals) => s1 := CallStmtRun(cfg, code, base, s, name, args, locals, k);
    case IfStmt(cond, thn, els) => s1 := IfRun(cfg, code, base, s, cond, thn, els, k);
  }

  lemma AssignRun(cfg: Config, code: seq<Cell>, base: Catch, s: State, kind: AssignKind, l: VarRef, e: Expr, k: nat)
    returns (s1: State)
    requires AcceptsExpr(cfg, e) && FitsExpr(cfg, e) && AcceptsStore(kind, l)
    requires FitsRef(cfg, l) && FitsStore(kind, |MatchFields(l.selectors)|)
    requires Ready(cfg, code, base, s, StmtCode(cfg, AssignStmt(kind, l, e)), k)
    ensures var r := Run(cfg, AssignStmt(kind, l, e), |s.m.stack|, s.m.scope, s.m.cap, s.m.w);
            Does(cfg, code, base, s, StmtCode(cfg, AssignStmt(kind, l, e)), k, r, [], s1)
  {
    hide BytesFrom, Exec, At, ExprCode, StoreCode, Eval, Store, FitsExpr, AcceptsExpr;
    var c1, c2 := ExprCode(cfg, e), StoreCode(cfg, kind, l);
    var r := Run(cfg, AssignStmt(kind, l, e), |s.m.stack|, s.m.scope, s.m.cap, s.m.w);
    Front(cfg, code, base, s, c1, c2, k);
    var a := ExprRun(cfg, code, base, s, e, c2.n + k);
    var r0 := Eval(cfg, e, |s.m.stack|, s.m.scope, s.m.cap, s.m.w);
    s1 := a;
    if r0.Ok? {
      Back(cfg, code, base, s, c1, c2, k, a);
      s1 := StoreRun(cfg, code, base, a, s.m.stack, r0.val, kind, l, k);
      assert s.m.stack + [] == s.m.stack;
      if !r.Ok? {
        Inherit(cfg, code, base, s, a, r, r);
      }
    } else {
      Inherit(cfg, code, base, s, s, r0, r);
    }
  }

  lemma CallStmtRun(cfg: Config, code: seq<Cell>, base: Catch, s: State, name: string, args: seq<Expr>,
                    locals: seq<Binding>, k: nat)
    returns (s1: State)
    requires AcceptsCall(cfg, name, args) && FitsCall(cfg, args, locals)
    requires Ready(cfg, code, base, s, StmtCode(cfg, CallStmt(name, args, locals)), k)
    ensures var r := Run(cfg, CallStmt(name, args, locals), |s.m.stack|, s.m.scope, s.m.cap, s.m.w);
            Does(cfg, code, base, s, StmtCode(cfg, CallStmt(name, args, locals)), k, r, [], s1)
  {
    hide BytesFrom, Exec, At, CallCode, EvalCall, FitsCall, AcceptsCall, IntWord, Decode;
    var c1, c2 := CallCode(cfg, name, args, locals), One(IntWord(cfg.width, OP_POP, 1));
    var r := Run(cfg, CallStmt(name, args, locals), |s.m.stack|, s.m.scope, s.m.cap, s.m.w);
    Front(cfg, code, base, s, c1, c2, k);
    var a := CallCodeRun(cfg, code, base, s, name, args, locals, c2.n + k);
    var r0 := EvalCall(cfg, name, args, locals, |s.m.stack|, s.m.scope, s.m.cap, s.m.w);
    s1 := a;
    if r0.Ok? {
      Back(cfg, code, base, s, c1, c2, k, a);
      s1 := PopRun(cfg, code, base, a, s.m.stack, r0.val, k);
      assert s.m.stack + [] == s.m.stack;
    } else {
      Inherit(cfg, code, base, s, s, r0, r);
    }
  }

  /** Where the parts of an if statement are. */
  lemma IfParts(code: seq<Cell>, pc: nat, c: seq<Cell>, w1: nat, t: seq<Cell>)
    requires At(code, pc, c + [Word(w1)] + t)
    ensures At(code, pc, c)
    ensures code[pc + |c|] == Word(w1) && At(code, pc + |c| + 1, t)
    ensures pc + |c| + 1 + |t| < |code|
  {
    AtSplit(code, pc, c + [Word(w1)], t);
    AtSplit(code, pc, c, [Word(w1)]);
    OneAt(code, pc + |c|, Word(w1));
  }

  /** The two branches, given the state after the test. */
  ghost predicate BranchesAt(cfg: Config, code: seq<Cell>, p: nat, t: Code, e: Code, hasElse: bool) {
    && At(code, p + 1, t.cells)
    && (if hasElse then
          && code[p] == Word(BranchWord(cfg.width, BRANCH_NE, |t.cells| + 2))
          && At(code, p + |t.cells| + 2, e.cells)
          && code[p + |t.cells| + 1] == Word(BranchWord(cfg.width, BRANCH_ALWAYS, |e.cells| + 1))
        else code[p] == Word(BranchWord(cfg.width, BRANCH_NE, |t.cells| + 1)))
  }

  lemma IfSplits(cfg: Config, code: seq<Cell>, pc: nat, cond: Expr, thn: seq<Stmt>, els: seq<Stmt>)
    requires At(code, pc, StmtCode(cfg, IfStmt(cond, thn, els)).cells)
    ensures At(code, pc, ExprCode(cfg, cond).cells)
    ensures BranchesAt(cfg, code, pc + |ExprCode(cfg, cond).cells|, StmtsCode(cfg, thn), StmtsCode(cfg, els), els != [])
  {
    var c, t, e := ExprCode(cfg, cond), StmtsCode(cfg, thn), StmtsCode(cfg, els);
    IfCode(cfg, cond, thn, els);
    hide BytesFrom, At, BranchesAt, BranchWord, StmtCode, ExprCode, StmtsCode, Decode;
    if els == [] {
      IfParts(code, pc, c.cells, BranchWord(cfg.width, BRANCH_NE, |t.cells| + 1), t.cells);
    } else {
      var front := c.cells + [Word(BranchWord(cfg.width, BRANCH_NE, |t.cells| + 2))] + t.cells;
      IfParts(code, pc, front, BranchWord(cfg.width, BRANCH_ALWAYS, |e.cells| + 1), e.cells);
      IfParts(code, pc, c.cells, BranchWord(cfg.width, BRANCH_NE, |t.cells| + 2), t.cells);
    }
    BranchesAre(cfg, code, pc + |c.cells|, t, e, els != []);
  }

  lemma BranchesAre(cfg: Config, code: seq<Cell>, p: nat, t: Code, e: Code, hasElse: bool)
    requires At(code, p + 1, t.cells)
    requires hasElse ==> && code[p] == Word(BranchWord(cfg.width, BRANCH_NE, |t.cells| + 2))
                         && At(code, p + |t.cells| + 2, e.cells)
                         && code[p + |t.cells| + 1] == Word(BranchWord(cfg.width, BRANCH_ALWAYS, |e.cells| + 1))
    requires !hasElse ==> code[p] == Word(BranchWord(cfg.width, BRANCH_NE, |t.cells| + 1))
    ensures BranchesAt(cfg, code, p, t, e, hasElse)
  {
  }

  lemma IfCode(cfg: Config, cond: Expr, thn: seq<Stmt>, els: seq<Stmt>)
    ensures var c, t, e := ExprCode(cfg, cond), StmtsCode(cfg, thn), StmtsCode(cfg, els);
            StmtCode(cfg, IfStmt(cond, thn, els)) == (
              if els == [] then
                Code(c.cells + [Word(BranchWord(cfg.width, BRANCH_NE, |t.cells| + 1))] + t.cells, c.n + 1 + t.n)
              else
                Code(c.cells + [Word(BranchWord(cfg.width, BRANCH_NE, |t.cells| + 2))] + t.cells
                     + [Word(BranchWord(cfg.width, BRANCH_ALWAYS, |e.cells| + 1))] + e.cells,
                     c.n + 1 + t.n + 1 + e.n))
  {
    hide BytesFrom, BranchWord, ExprCode, StmtsCode;
  }

  /** From the value of the condition to the end. */
  lemma BranchesRun(cfg: Config, code: seq<Cell>, base: Catch, s: State, a: State, v: Value, cond: Expr,
                    thn: seq<Stmt>, els: seq<Stmt>, k: nat)
    returns (s1: State)
    requires AcceptsStmts(cfg, thn) && AcceptsStmts(cfg, els) && FitsStmts(cfg, thn) && FitsStmts(cfg, els)
    requires |StmtsCode(cfg, thn).cells| + 2 < 0x20_0000 && |StmtsCode(cfg, els).cells| + 2 < 0x20_0000
    requires base.depth <= |s.m.stack| && base.scopes <= |s.m.scope| && k >= 1
    requires a.m.stack == s.m.stack + [v] && a.m.scope == s.m.scope && a.pc >= s.pc
    requires a.ninstr >= 1 + StmtsCode(cfg, thn).n + (if els == [] then 0 else 1 + StmtsCode(cfg, els).n) + k
    requires a.nsize >= BytesFrom(cfg, code, a.pc)
    requires BranchesAt(cfg, code, a.pc, StmtsCode(cfg, thn), StmtsCode(cfg, els), els != [])
    requires Exec(cfg, code, base, s) == Exec(cfg, code, base, a)
    ensures var size := |StmtsCode(cfg, thn).cells| + (if els == [] then 0 else 1 + |StmtsCode(cfg, els).cells|);
            var r := match Test01(v, a.m.cap, a.m.w)
                     case Ok(t, _, _) => RunAll(cfg, if t then thn else els, |s.m.stack|, s.m.scope, a.m.cap, a.m.w)
                     case other => other.PropagateFailure();
            Reaches(cfg, code, base, s, Code(Fills(a.pc + 1 + size - s.pc), 0), k, r,
                    if r.Ok? then s.m.(cap := r.cap, w := r.w) else s.m, s1)
    decreases IfStmt(cond, thn, els), 0
  {
    hide BytesFrom, Exec, BranchWord, Truth, Dangling, StmtsCode, At, RunAll, AcceptsStmts, FitsStmts, Decode;
    var ct, ce := StmtsCode(cfg, thn), StmtsCode(cfg, els);
    BranchesFit(cfg, code, a.pc, ct, ce, els != []);
    var diff := if els == [] then |ct.cells| + 1 else |ct.cells| + 2;
    s1 := CondRun(cfg, code, base, a, BRANCH_NE, diff, s.m.stack, v);
    var b := s1;
    if !Dangling(a.m.w, v) && Truth(v).Some? {
      var t := Truth(v).value;
      var r := RunAll(cfg, if t then thn else els, |s.m.stack|, s.m.scope, a.m.cap, a.m.w);
      if t {
        s1 := StmtsRun(cfg, code, base, b, thn, if els == [] then k else 1 + ce.n + k);
        if r.Ok? && els != [] {
          s1 := JumpRun(cfg, code, base, s1, |ce.cells| + 1);
        }
      } else if els == [] {
        NoStmts(cfg, |s.m.stack|, s.m.scope, a.m.cap, a.m.w);
      } else {
        s1 := StmtsRun(cfg, code, base, b, els, k);
      }
      if !r.Ok? {
        Inherit(cfg, code, base, s, b, r, r);
      }
      assert s.m.stack + [] == s.m.stack;
    }
  }

  lemma NoStmts(cfg: Config, depth: nat, scope: seq<Frame>, cap: nat, w: World)
    ensures RunAll(cfg, [], depth, scope, cap, w) == Ok((), cap, w)
  {
  }

  lemma BranchesFit(cfg: Config, code: seq<Cell>, p: nat, t: Code, e: Code, hasElse: bool)
    requires BranchesAt(cfg, code, p, t, e, hasElse)
    ensures p + 1 + |t.cells| + (if hasElse then 1 + |e.cells| else 0) < |code|
  {
  }

  lemma IfRun(cfg: Config, code: seq<Cell>, base: Catch, s: State, cond: Expr, thn: seq<Stmt>, els: seq<Stmt>, k: nat)
    returns (s1: State)
    requires AcceptsStmt(cfg, IfStmt(cond, thn, els)) && FitsStmt(cfg, IfStmt(cond, thn, els))
    requires Ready(cfg, code, base, s, StmtCode(cfg, IfStmt(cond, thn, els)), k)
    ensures var r := Run(cfg, IfStmt(cond, thn, els), |s.m.stack|, s.m.scope, s.m.cap, s.m.w);
            Does(cfg, code, base, s, StmtCode(cfg, IfStmt(cond, thn, els)), k, r, [], s1)
    decreases IfStmt(cond, thn, els), 1
  {
    hide BytesFrom, Exec, At, ExprCode, StmtsCode, StmtCode, Eval, RunAll, FitsExpr, AcceptsExpr, AcceptsStmts,
         FitsStmts, BranchWord,
         BranchesAt, Truth, Dangling;
    IfSplits(cfg, code, s.pc, cond, thn, els);
    IfCode(cfg, cond, thn, els);
    var c, t, e := ExprCode(cfg, cond), StmtsCode(cfg, thn), StmtsCode(cfg, els);
    var r := Run(cfg, IfStmt(cond, thn, els), |s.m.stack|, s.m.scope, s.m.cap, s.m.w);
    var rest := 1 + t.n + (if els == [] then 0 else 1 + e.n) + k;
    var a := ExprRun(cfg, code, base, s, cond, rest);
    var r0 := Eval(cfg, cond, |s.m.stack|, s.m.scope, s.m.cap, s.m.w);
    s1 := a;
    if r0.Ok? {
      s1 := BranchesRun(cfg, code, base, s, a, r0.val, cond, thn, els, k);
      assert s.m.stack + [] == s.m.stack;
    } else {
      Inherit(cfg, code, base, s, s, r0, r);
    }
  }

  lemma {:induction false} StmtsRun(cfg: Config, code: seq<Cell>, base: Catch, s: State, ts: seq<Stmt>, k: nat)
    returns (s1: State)
    requires AcceptsStmts(cfg, ts) && FitsStmts(cfg, ts)
    requires Ready(cfg, code, base, s, StmtsCode(cfg, ts), k)
    ensures var r := RunAll(cfg, ts, |s.m.stack|, s.m.scope, s.m.cap, s.m.w);
            Does(cfg, code, base, s, StmtsCode(cfg, ts), k, r, [], s1)
    decreases ts, 0
  {
    hide BytesFrom, Exec, At, StmtCode, Run, AcceptsStmt, FitsStmt;
    s1 := s;
    assert s.m.stack + [] == s.m.stack;
    if ts != [] {
      var n := |ts| - 1;
      var c1, c2 := StmtsCode(cfg, ts[..n]), StmtCode(cfg, ts[n]);
      var r := RunAll(cfg, ts, |s.m.stack|, s.m.scope, s.m.cap, s.m.w);
      Front(cfg, code, base, s, c1, c2, k);
      var a := StmtsRun(cfg, code, base, s, ts[..n], c2.n + k);
      var r0 := RunAll(cfg, ts[..n], |s.m.stack|, s.m.scope, s.m.cap, s.m.w);
      s1 := a;
      if r0.Ok? {
        Back(cfg, code, base, s, c1, c2, k, a);
        s1 := StmtRun(cfg, code, base, a, ts[n], k);
        if !r.Ok? {
          Inherit(cfg, code, base, s, a, r, r);
        }
      } else {
        Inherit(cfg, code, base, s, s, r0, r);
      }
    }
  }

  // ------------------------------------------------------------------
  // Targets
  // ------------------------------------------------------------------

  /** The end of a run of vm_exec that the actions of a target stand for. */
  function Expected(m: Memory, r: Res<()>): Final {
    match r
    case Ok(_, cap, w) => Ran(true, m.(cap := cap, w := w))
    case Exn(err, cap, w) => Threw(err, m.(cap := cap, w := w))
    case Silent(cap, w) => Gave(m.(cap := cap, w := w))
    case Bad => Stuck
  }

  /** Semantic preservation for a whole target: vm_exec on the compiled chunk
      changes the world and the stack capacity as the evaluator says, ends in
      the same way, reaches HALT if it completes, and in every case leaves the
      stack and the scope chain exactly as they were on entry. */
  lemma TargetCorrect(cfg: Config, ss: seq<Stmt>, m: Memory)
    requires AcceptsStmts(cfg, ss) && FitsStmts(cfg, ss)
    ensures VmExec(cfg, TargetCode(cfg, ss).cells, TargetCode(cfg, ss).n, m)
         == Expected(m, RunAll(cfg, ss, |m.stack|, m.scope, m.cap, m.w))
  {
    hide BytesFrom, Exec, StmtsCode, RunAll, AcceptsStmts, FitsStmts, IntWord, Decode;
    var c1, c2 := StmtsCode(cfg, ss), One(IntWord(cfg.width, OP_HALT, 0));
    var c := c1.Then(c2);
    var base := Catch(|m.stack|, |m.scope|);
    var s := State(0, c.n, |c.cells| * cfg.width.Bytes(), m);
    assert At(c.cells, 0, c1.cells);
    Ahead(cfg, c.cells, 0, 0);
    var s1 := StmtsRun(cfg, c.cells, base, s, ss, 1);
    var r := RunAll(cfg, ss, |m.stack|, m.scope, m.cap, m.w);
    assert m.stack[..|m.stack|] == m.stack && m.scope[..|m.scope|] == m.scope;
    if r.Ok? {
      assert m.stack + [] == m.stack;
      HaltRun(cfg, c.cells, base, s1);
    }
  }

  lemma HaltRun(cfg: Config, code: seq<Cell>, base: Catch, s: State)
    requires s.ninstr > 0 && s.pc < |code| && code[s.pc] == Word(IntWord(cfg.width, OP_HALT, 0))
    ensures Exec(cfg, code, base, s) == Ran(true, s.m)
  {
    hide BytesFrom, IntWord, Decode;
    IntWordDecodes(cfg.width, OP_HALT, 0);
    Fetched(cfg, code, s, IntWord(cfg.width, OP_HALT, 0), Halt);
  }
}
