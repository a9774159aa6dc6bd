/** The virtual machine as it works (src/vm-instr.c, src/vm-stack.c,
    src/vm-local.c, src/vm.c, src/builtin.c): every instruction pops, pushes and
    moves the program counter in place.  Each method is proved to do what
    `Machine` says the instruction does. */
module VirtualMachine {
  import opened Words
  import opened Facts
  import opened Machine
  import opened Globals
  import opened Lang
  import opened Emit
  import opened Correctness

  /** vm_stack_t. */
  class Stack {
    var entries: seq<Value>
    var nalloc: nat

    ghost predicate Valid()
      reads this
    {
      |entries| <= nalloc
    }

    /** vm_stack_new. */
    constructor (size: nat)
      ensures Valid() && entries == [] && nalloc == size
    {
      entries, nalloc := [], size;
    }

    /** vm_stack_grow. */
    method MakeRoom(nspace: nat)
      requires Valid()
      modifies this`nalloc
      ensures Valid() && nalloc == Grow(old(nalloc), |entries|, nspace)
    {
      var nmore := nspace - (nalloc - |entries|);
      if nmore > 0 {
        nalloc := nalloc + nmore;
      }
    }

    /** vm_push. */
    method Push(v: Value) returns (ok: bool)
      requires Valid()
      modifies this`entries
      ensures Valid() && ok == (|old(entries)| < nalloc)
      ensures entries == if ok then old(entries) + [v] else old(entries)
    {
      ok := |entries| < nalloc;
      if ok {
        entries := entries + [v];
      }
    }

    /** vm_pop. */
    method Pop() returns (v: Option<Value>)
      requires Valid()
      modifies this`entries
      ensures Valid()
      ensures old(entries) == [] ==> v == None && entries == []
      ensures old(entries) != [] ==> v == Some(Top(old(entries))) && entries == Drop(old(entries))
    {
      if |entries| == 0 {
        return None;
      }
      v := Some(entries[|entries| - 1]);
      entries := entries[..|entries| - 1];
    }

    /** vm_pop, when nothing will do as well. */
    method PopValue() returns (v: Value)
      requires Valid()
      modifies this`entries
      ensures Valid() && (v, entries) == PopAny(old(entries))
      ensures entries <= old(entries)
    {
      var popped := Pop();
      v := if popped.None? then Nil else popped.value;
    }

    /** vm_pop_int: pops only an integer. */
    method PopInteger() returns (i: int)
      requires Valid()
      modifies this`entries
      ensures Valid() && (i, entries) == PopInt(old(entries))
    {
      if |entries| == 0 || !entries[|entries| - 1].Int? {
        return 0x7fff_ffff;
      }
      i := entries[|entries| - 1].i;
      entries := entries[..|entries| - 1];
    }

    /** vm_pop_string and vm_pop_global pop only what they are after. */
    method PopString() returns (s: Option<string>)
      requires Valid()
      modifies this`entries
      ensures Valid()
      ensures s.Some? <==> old(entries) != [] && Top(old(entries)).Str?
      ensures s.Some? ==> s.value == Top(old(entries)).s && entries == Drop(old(entries))
      ensures s.None? ==> entries == old(entries)
    {
      if |entries| == 0 || !entries[|entries| - 1].Str? {
        return None;
      }
      s := Some(entries[|entries| - 1].s);
      entries := entries[..|entries| - 1];
    }

    method PopGlobal() returns (g: Option<Global>)
      requires Valid()
      modifies this`entries
      ensures Valid()
      ensures g.Some? <==> old(entries) != [] && Top(old(entries)).Glob?
      ensures g.Some? ==> g.value == Top(old(entries)).g && entries == Drop(old(entries))
      ensures g.None? ==> entries == old(entries)
    {
      if |entries| == 0 || !entries[|entries| - 1].Glob? {
        return None;
      }
      g := Some(entries[|entries| - 1].g);
      entries := entries[..|entries| - 1];
    }

    /** vm_peek, of a global. */
    method Peek(i: int) returns (g: Option<Global>)
      ensures g == PeekGlobal(entries, i)
    {
      if i < 0 || |entries| <= i || !entries[|entries| - 1 - i].Glob? {
        return None;
      }
      return Some(entries[|entries| - 1 - i].g);
    }

    /** Pops field names until `n` of them are off the stack or something else
        turns up. */
    method PopFields(n: nat) returns (ok: bool, fields: seq<string>)
      requires Valid()
      modifies this`entries
      ensures Valid()
      ensures PopNames(n, old(entries)) == if ok then Names(fields, entries) else NamesError(entries)
      ensures entries <= old(entries)
    {
      ok, fields := true, [];
      var i := 0;
      while i < n
        invariant 0 <= i <= n && Valid() && PopNames(i, old(entries)) == Names(fields, entries)
        invariant entries <= old(entries)
      {
        var name := PopString();
        if name.None? {
          NamesStuck(i + 1, n, old(entries));
          return false, fields;
        }
        fields := fields + [name.value];
        i := i + 1;
      }
    }

    /** vm_stack_cleanup: globals are freed as they are popped. */
    method Cleanup(narg: nat, facts: FactSpace)
      requires Valid() && narg <= |entries|
      modifies this`entries, facts`released
      ensures Valid() && entries == old(entries)[..|old(entries)| - narg]
      ensures facts.released == old(facts.released) + HeldBy(old(entries)[|old(entries)| - narg..])
    {
      hide HeldBy;
      ghost var all := entries;
      HeldNone();
      assert all[|all|..] == [];
      var i := 0;
      while i < narg
        invariant 0 <= i <= narg && Valid()
        invariant entries == all[..|all| - i]
        invariant facts.released == old(facts.released) + HeldBy(all[|all| - i..])
      {
        var v := Pop();
        HeldFront(all[|all| - i - 1..]);
        assert all[|all| - i - 1..][1..] == all[|all| - i..];
        facts.ReleaseValue(v.value);
        i := i + 1;
      }
    }
  }

  lemma HeldNone()
    ensures HeldBy([]) == multiset{}
  {
  }

  lemma HeldFront(values: seq<Value>)
    requires values != []
    ensures HeldBy(values) == Held(values[0]) + HeldBy(values[1..])
  {
    hide HeldBy, Held;
    HeldSplit(values, 1);
    HeldNext([], values[0]);
    HeldNone();
    assert values[..1] == [] + [values[0]];
  }

  lemma {:induction false} NamesStuck(i: nat, n: nat, st: seq<Value>)
    requires i <= n && PopNames(i, st).NamesError?
    ensures PopNames(n, st) == PopNames(i, st)
  {
    if i < n {
      NamesStuck(i, n - 1, st);
    }
  }

  /** Running out of names leaves what is below them. */
  lemma {:induction false} NamesAbove(n: nat, st: seq<Value>)
    requires n < |st| && PopNames(n, st).NamesError?
    ensures PopNames(n, st).stack <= st && |st| - n <= |PopNames(n, st).stack|
  {
    if PopNames(n - 1, st).NamesError? {
      NamesAbove(n - 1, st);
    } else {
      NamesLeave(n - 1, st);
    }
  }

  lemma {:induction false} NamesLeave(n: nat, st: seq<Value>)
    requires PopNames(n, st).Names?
    ensures n <= |st| && PopNames(n, st).stack == st[..|st| - n] && |PopNames(n, st).fields| == n
  {
    if n > 0 {
      NamesLeave(n - 1, st);
    }
  }

  /** Scopes never hold a global. */
  ghost predicate Unglobal(scope: seq<Frame>) {
    forall i, x | 0 <= i < |scope| && x in scope[i] :: !scope[i][x].Glob?
  }

  /** The ledger of references: what has been released, what the stack holds, and what
      has been taken. */
  ghost predicate Balanced(released: multiset<Ref>, st: seq<Value>, taken: multiset<Ref>, scope: seq<Frame>) {
    released + HeldBy(st) <= taken && Unglobal(scope)
  }

  /** No more is owed than before. */
  lemma BalancedMove(rel0: multiset<Ref>, st0: seq<Value>, rel: multiset<Ref>, st: seq<Value>, taken: multiset<Ref>,
                     scope: seq<Frame>)
    requires rel + HeldBy(st) <= rel0 + HeldBy(st0)
    ensures Balanced(rel0, st0, taken, scope) ==> Balanced(rel, st, taken, scope)
  {
    hide HeldBy, Unglobal;
  }

  lemma BalancedPush(rel: multiset<Ref>, st: seq<Value>, v: Value, taken: multiset<Ref>, scope: seq<Frame>)
    ensures Balanced(rel, st, taken, scope) ==> Balanced(rel, st + [v], taken + Held(v), scope)
    ensures Balanced(rel, st, taken, scope) ==> Balanced(rel, st, taken + Held(v), scope)
    ensures Held(v) == multiset{} && Balanced(rel, st, taken, scope) ==> Balanced(rel, st + [v], taken, scope)
  {
    hide HeldBy, Held, Unglobal;
    HeldNext(st, v);
    assert rel + HeldBy(st + [v]) == rel + HeldBy(st) + Held(v);
  }

  lemma BalancedPop(rel: multiset<Ref>, st: seq<Value>, taken: multiset<Ref>, scope: seq<Frame>)
    requires st != []
    ensures Balanced(rel, st, taken, scope) ==> Balanced(rel, Drop(st), taken, scope)
    ensures Balanced(rel, st, taken, scope) ==> Balanced(rel + Held(Top(st)), Drop(st), taken, scope)
  {
    hide HeldBy, Held, Unglobal;
    HeldNext(Drop(st), Top(st));
    assert st == Drop(st) + [Top(st)];
    assert rel + Held(Top(st)) + HeldBy(Drop(st)) == rel + HeldBy(st);
  }

  lemma BalancedOuter(rel: multiset<Ref>, st: seq<Value>, taken: multiset<Ref>, scope: seq<Frame>)
    requires scope != []
    ensures Balanced(rel, st, taken, scope) ==> Balanced(rel, st, taken, scope[..|scope| - 1])
  {
    hide HeldBy;
  }

  lemma BalancedUnglobal(rel: multiset<Ref>, st: seq<Value>, taken: multiset<Ref>, scope: seq<Frame>)
    ensures Balanced(rel, st, taken, scope) ==> Unglobal(scope)
  {
  }

  lemma BalancedBelow(rel: multiset<Ref>, a: seq<Value>, b: seq<Value>, taken: multiset<Ref>, scope: seq<Frame>)
    requires a <= b
    ensures Balanced(rel, b, taken, scope) ==> Balanced(rel, a, taken, scope)
  {
    hide HeldBy, Unglobal;
    HeldLess(a, b);
  }

  lemma UnglobalMore(scope: seq<Frame>)
    ensures Unglobal(scope) ==> Unglobal(scope + [map[]])
  {
  }

  /** How an instruction leaves vm_run's loop, if it does. */
  datatype Signal = Go | Stop | Raise(err: int) | Fail

  /** vm_state_t. */
  class Vm {
    const cfg: Config
    const stack: Stack
    const facts: FactSpace
    var code: seq<Cell>
    var pc: nat
    var ninstr: int
    var nsize: int
    var scope: seq<Frame>
    var caught: seq<Catch>
    var info: string

    /** vm_init. */
    constructor (config: Config, size: nat, space: FactSpace)
      ensures Valid() && cfg == config && facts == space && fresh(stack)
      ensures stack.entries == [] && stack.nalloc == (if size == 0 then 32 else size) && scope == [] && caught == []
    {
      cfg, facts := config, space;
      stack := new Stack(if size == 0 then 32 else size);
      code, pc, ninstr, nsize, scope, caught, info := [], 0, 0, 0, [], [], "";
    }

    ghost predicate Valid()
      reads this, stack
    {
      stack.Valid()
    }

    ghost function Mem(): Memory
      reads this, stack, facts
    {
      Memory(stack.entries, stack.nalloc, scope, facts.w)
    }

    ghost function Now(): State
      reads this, stack, facts
    {
      State(pc, ninstr, nsize, Mem())
    }

    /** The references that have been released or will be when the stack is cleaned up. */
    ghost function Owed(): multiset<Ref>
      reads this, stack, facts
    {
      facts.released + HeldBy(stack.entries)
    }

    /** No reference is released, now or by unwinding, that has not been taken. */
    ghost predicate Solvent()
      reads this, stack, facts
    {
      Balanced(facts.released, stack.entries, facts.taken, scope)
    }

    /** What the outcome of a step means for the machine. */
    ghost predicate Shows(sig: Signal, o: Outcome)
      reads this, stack, facts
    {
      match o
      case Next(s) => sig == Go && Now() == s
      case Halted(m) => sig == Stop && Mem() == m
      case Raised(err, m) => sig == Raise(err) && Mem() == m
      case Failed(m) => sig == Fail && Mem() == m
      case Wild => true
    }

    method Advance(n: nat)
      modifies this`pc, this`ninstr, this`nsize
      ensures Machine.Advance(cfg, old(Now()), n, Mem()) == Next(Now())
    {
      ninstr := ninstr - 1;
      pc := pc + n;
      nsize := nsize - n * cfg.width.Bytes();
    }

    // ----------------------------------------------------------------
    // Locals
    // ----------------------------------------------------------------

    /** vm_scope_set on the innermost scope. */
    method SetLocal(id: int, v: Value) returns (ok: bool)
      requires scope != []
      modifies this`scope
      ensures var r := ScopeSet(cfg.nlocal, old(scope)[|old(scope)| - 1], id % 0x100_0000, v);
              && ok == r.Some?
              && scope == if ok then old(scope)[|old(scope)| - 1 := r.value] else old(scope)
      ensures Unglobal(old(scope)) ==> Unglobal(scope)
    {
      var idx := id % 0x100_0000;
      if cfg.nlocal <= idx {
        return false;
      }
      match v {
        case Int(_) =>
          scope := scope[|scope| - 1 := scope[|scope| - 1][idx := v]];
        case Dbl(_) =>
          scope := scope[|scope| - 1 := scope[|scope| - 1][idx := v]];
        case Str(_, _) =>
          scope := scope[|scope| - 1 := scope[|scope| - 1][idx := v]];
        case Nil =>
        case Glob(_) =>
          return false;
      }
      return true;
    }

    /** vm_scope_get: walks the scopes outwards. */
    method GetLocal(idx: nat) returns (v: Value)
      ensures v == ScopeGet(cfg.nlocal, scope, idx)
      ensures Unglobal(scope) ==> !v.Glob?
    {
      if scope == [] || cfg.nlocal <= idx {
        return Nil;
      }
      var p := |scope|;
      assert scope[..p] == scope;
      while p > 0
        invariant 0 <= p <= |scope|
        invariant ScopeGet(cfg.nlocal, scope, idx) == ScopeGet(cfg.nlocal, scope[..p], idx)
      {
        p := p - 1;
        assert scope[..p + 1][..p] == scope[..p];
        if idx in scope[p] {
          return scope[p][idx];
        }
      }
      return Nil;
    }

    // ----------------------------------------------------------------
    // PUSH and POP
    // ----------------------------------------------------------------

    /** CHECK_AND_GROW and the push of PUSH. */
    method PushChecked(nbyte: nat, ncell: nat, v: Value) returns (sig: Signal)
      requires Valid()
      modifies this`pc, this`ninstr, this`nsize, stack, facts`taken
      ensures Valid() && Shows(sig, PushValue(cfg, old(Now()), nbyte, ncell, v))
      ensures old(Solvent()) ==> Solvent()
    {
      hide Held, Balanced;
      if 0 <= nsize - cfg.width.Bytes() < nbyte {
        return Raise(EINVAL);
      }
      BalancedPush(facts.released, stack.entries, v, facts.taken, scope);
      facts.Take(v);
      stack.MakeRoom(cfg.width.Cells(nbyte));
      var ok := stack.Push(v);
      Advance(ncell);
      return Go;
    }

    /** One turn of the loop of PUSH LOCALS: an identifier and a value. */
    method BindNext(ghost n: nat) returns (ok: bool)
      requires Valid() && scope != [] && n > 0
      modifies this`scope, stack`entries
      ensures Valid() && |scope| == |old(scope)| && stack.entries <= old(stack.entries)
      ensures var top := |scope| - 1;
              && scope[..top] == old(scope)[..top]
              && BindLocals(cfg.nlocal, n, old(stack.entries), old(scope)[top])
                 == if ok then BindLocals(cfg.nlocal, n - 1, stack.entries, scope[top])
                    else BindError(stack.entries, scope[top])
      ensures Unglobal(old(scope)) ==> Unglobal(scope)
    {
      hide ScopeSet, Unglobal;
      if stack.entries == [] || !stack.entries[|stack.entries| - 1].Int? {
        return false;
      }
      var id := stack.PopInteger();
      var v := stack.Pop();
      if v.None? {
        return false;
      }
      ok := SetLocal(id, v.value);
    }

    /** PUSH LOCALS: a new scope, filled from the stack. */
    method PushLocals(n: nat) returns (sig: Signal)
      requires Valid()
      modifies this`pc, this`ninstr, this`nsize, this`scope, stack`entries
      ensures Valid()
      ensures match BindLocals(cfg.nlocal, n, old(stack.entries), map[])
              case Bound(st, frame) =>
                sig == Go && Machine.Advance(cfg, old(Now()), 1, Mem()) == Next(Now())
                && stack.entries == st && scope == old(scope) + [frame]
              case BindError(st, frame) => sig == Raise(EINVAL) && stack.entries == st && scope == old(scope) + [frame]
      ensures Unglobal(old(scope)) ==> Unglobal(scope)
      ensures stack.entries <= old(stack.entries)
    {
      hide BindLocals, Unglobal;
      UnglobalMore(scope);
      scope := scope + [map[]];
      ghost var st0, top := stack.entries, |old(scope)|;
      var i := 0;
      while i < n
        invariant 0 <= i <= n && Valid() && |scope| == top + 1 && scope[..top] == old(scope)
        invariant BindLocals(cfg.nlocal, n, st0, map[]) == BindLocals(cfg.nlocal, n - i, stack.entries, scope[top])
        invariant Unglobal(old(scope)) ==> Unglobal(scope)
        invariant stack.entries <= st0
        modifies this`scope, stack`entries
      {
        var ok := BindNext(n - i);
        if !ok {
          assert scope == old(scope) + [scope[top]];
          return Raise(EINVAL);
        }
        i := i + 1;
      }
      BindsNothing(cfg.nlocal, stack.entries, scope[top]);
      assert scope == old(scope) + [scope[top]];
      Advance(1);
      return Go;
    }

    /** vm_instr_push. */
    method DoPush(i: Instr) returns (sig: Signal)
      requires Valid() && pc < |code| && !StepPush(cfg, code, Now(), i).Wild?
      modifies this`pc, this`ninstr, this`nsize, this`scope, stack, facts`taken
      ensures Valid() && Shows(sig, StepPush(cfg, old(code), old(Now()), i))
      ensures old(Solvent()) ==> Solvent()
    {
      hide PushValue, BindLocals, Lookup, Machine.Advance, HeldBy, Unglobal;
      var imm := if pc + 1 < |code| then code[pc + 1] else Fill;
      match i {
        case PushInt(data) =>
          if data != 0 {
            sig := PushChecked(4, 1, Int(CInt(data - 1)));
          } else {
            sig := PushChecked(4, 2, Int(CInt(imm.bits)));
          }
        case PushDouble =>
          sig := PushChecked(8, 1 + cfg.width.Cells(8), Dbl(imm.d));
        case PushString(len) =>
          sig := PushChecked(len, 1 + cfg.width.Cells(len), Str(imm.s));
        case PushGlobal(len) =>
          sig := PushChecked(len, 1 + cfg.width.Cells(len), Glob(Lookup(facts.w, imm.s)));
        case PushLocals(n) =>
          ghost var st0 := stack.entries;
          sig := PushLocals(n);
          HeldLess(stack.entries, st0);
        case _ =>
          return Raise(EINVAL);
      }
    }

    /** vm_instr_pop. */
    method DoPop(i: Instr) returns (sig: Signal)
      requires Valid()
      modifies this`pc, this`ninstr, this`nsize, this`scope, stack, facts`released
      ensures Valid() && Shows(sig, StepPop(cfg, old(Now()), i))
      ensures old(Solvent()) ==> Solvent()
      ensures i.PopDiscard? && old(stack.entries) != [] ==>
                facts.released == old(facts.released) + Held(Top(old(stack.entries)))
    {
      hide Held, Balanced;
      match i {
        case PopLocals =>
          if scope == [] {
            return Raise(EINVAL);
          }
          BalancedOuter(facts.released, stack.entries, facts.taken, scope);
          scope := scope[..|scope| - 1];
        case PopDiscard =>
          ghost var st0 := stack.entries;
          var v := stack.Pop();
          if v.Some? {
            BalancedPop(facts.released, st0, facts.taken, scope);
            facts.ReleaseValue(v.value);
          }
        case _ =>
          return Raise(EINVAL);
      }
      Advance(1);
      return Go;
    }

    // ----------------------------------------------------------------
    // FILTER, UPDATE, REPLACE
    // ----------------------------------------------------------------

    /** One turn of the outer loop of FILTER. */
    method ApplyNext(g: GlobalObj, ghost n: nat) returns (fine: bool, drops: nat)
      requires Valid() && n > 0 && g.nfact == g.slots.Length >= |g.Holds()|
      modifies stack`entries, facts`released, g.slots
      ensures Valid() && stack.entries <= old(stack.entries) && |stack.entries| >= |old(stack.entries)| - 3
      ensures FilterLoop(facts.w, n, old(stack.entries), old(g.Holds()), g.nfact)
           == if fine then FilterLoop(facts.w, n - 1, stack.entries, g.Holds(), g.nfact)
              else FilterError(stack.entries, !g.Freeable())
      ensures fine ==> drops == |old(g.Holds())| - |g.Holds()|
      ensures |g.Holds()| <= |old(g.Holds())|
      ensures facts.released + multiset(g.Holds()) == old(facts.released) + multiset(old(g.Holds()))
      ensures old(facts.released) <= facts.released
    {
      hide FilterOne, Live, Drops;
      drops := 0;
      var field := stack.PopString();
      if field.None? {
        return false, drops;
      }
      var value := stack.PopValue();
      var op := stack.PopInteger();
      fine, drops := facts.ApplyTest(g, Test(field.value, value, op == RELOP_NE));
    }

    /** The outer loop of FILTER: three entries off the stack for each selector.  When
        it raises, the global is left as it is, with nfact counting what it had. */
    method ApplyAll(g: GlobalObj, n: nat) returns (ok: bool, nfact: nat)
      requires Valid() && g.nfact == g.slots.Length == |g.Holds()|
      modifies stack`entries, facts`released, g.slots
      ensures Valid() && stack.entries <= old(stack.entries) && |stack.entries| >= |old(stack.entries)| - 3 * n
      ensures FilterLoop(facts.w, n, old(stack.entries), old(g.Holds()), g.nfact)
           == if ok then Kept(stack.entries, g.Holds()) else FilterError(stack.entries, !g.Freeable())
      ensures ok ==> nfact == |g.Holds()|
      ensures facts.released + multiset(g.Holds()) == old(facts.released) + multiset(old(g.Holds()))
      ensures old(facts.released) <= facts.released
    {
      hide FilterLoop, Live;
      nfact := g.nfact;
      ghost var st0, refs0 := stack.entries, g.Holds();
      var i := 0;
      while i < n
        invariant 0 <= i <= n && Valid() && nfact == |g.Holds()| <= g.nfact
        invariant stack.entries <= st0 && |stack.entries| >= |st0| - 3 * i
        invariant FilterLoop(facts.w, n, st0, refs0, g.nfact)
               == FilterLoop(facts.w, n - i, stack.entries, g.Holds(), g.nfact)
        invariant facts.released + multiset(g.Holds()) == old(facts.released) + multiset(refs0)
        invariant old(facts.released) <= facts.released
      {
        var fine, drops := ApplyNext(g, n - i);
        if !fine {
          return false, nfact;
        }
        nfact := nfact - drops;
        i := i + 1;
      }
      FilterLoopEnds(facts.w, stack.entries, g.Holds(), g.nfact);
      ok := true;
    }

    /** Packs the facts left and puts the global back where it sits on the stack. */
    method PutBack(g: GlobalObj, nfact: nat, at: nat, global: Global, ghost rel0: multiset<Ref>)
      requires Valid() && nfact == |g.Holds()| && g.nfact == |g.slots[..]|
      requires at < |stack.entries| && stack.entries[at] == Glob(global)
      requires facts.released + multiset(g.Holds()) == rel0 + multiset(global.facts)
      modifies stack`entries, g`nfact, g.slots
      ensures Valid() && stack.entries == old(stack.entries)[at := Glob(global.(facts := old(g.Holds())))]
      ensures Balanced(rel0, old(stack.entries), facts.taken, scope) ==> Solvent()
    {
      hide Live, HeldBy, Balanced;
      ghost var kept, st1 := g.Holds(), stack.entries;
      facts.Pack(g, nfact);
      assert forall k | 0 <= k < nfact :: g.slots[k] == g.slots[..nfact][k];
      var refs := g.Refs();
      OccupiedOnce(refs, kept);
      stack.entries := stack.entries[at := Glob(global.(facts := refs))];
      HeldUpdate(st1, at, Glob(global.(facts := kept)));
      Exchanged(rel0, facts.released, HeldBy(st1), HeldBy(stack.entries), multiset(global.facts), multiset(kept));
      BalancedMove(rel0, st1, facts.released, stack.entries, facts.taken, scope);
    }

    /** vm_instr_filter.  Each fact it drops from the global is released once.  When it
        raises, `table` is the global that stays on the stack: freeing it there, as
        unwinding does, is undefined exactly if it counts facts it has dropped. */
    method DoFilter(n: int) returns (sig: Signal, ghost kept: seq<Ref>, ghost table: GlobalObj?)
      requires Valid()
      modifies this`pc, this`ninstr, this`nsize, stack`entries, facts`released
      ensures Valid() && Shows(sig, StepFilter(cfg, old(Now()), n))
      ensures StepFilter(cfg, old(Now()), n).Wild? <==> table != null && !table.Freeable()
      ensures table != null ==> sig == Raise(EINVAL)
      ensures old(Solvent()) && !StepFilter(cfg, old(Now()), n).Wild? ==> Solvent()
      ensures sig == Go ==>
                && 0 <= n && PeekGlobal(old(stack.entries), 3 * n).Some?
                && var had := PeekGlobal(old(stack.entries), 3 * n).value.facts;
                && FilterLoop(old(facts.w), n, old(stack.entries), had, |had|).Kept?
                && FilterLoop(old(facts.w), n, old(stack.entries), had, |had|).refs == kept
                && facts.released + multiset(kept) == old(facts.released) + multiset(had)
    {
      hide FilterLoop, Live, Occupied, HeldBy, Balanced;
      kept, table := [], null;
      ghost var st0, rel0 := stack.entries, facts.released;
      var peeked := stack.Peek(3 * n);
      if peeked.None? {
        return Raise(ENOENT), kept, null;
      }
      ghost var had := peeked.value.facts;
      var at := |stack.entries| - 1 - 3 * n;
      var g := new GlobalObj(peeked.value.facts);
      assert g.nfact == g.slots.Length by {
        LiveOccupied(peeked.value.facts);
        assert |g.slots[..]| == |peeked.value.facts|;
      }
      var ok, nfact := ApplyAll(g, n);
      kept := g.Holds();
      ghost var st1 := stack.entries;
      if !ok {
        if g.Freeable() {
          NoneReleased(rel0, facts.released, multiset(had), multiset(kept));
          BalancedBelow(rel0, st1, st0, facts.taken, scope);
        }
        return Raise(EINVAL), kept, g;
      }
      assert st1[at] == st0[at] == Glob(peeked.value);
      BalancedBelow(rel0, st1, st0, facts.taken, scope);
      PutBack(g, nfact, at, peeked.value, rel0);
      Advance(1);
      sig := Go;
    }

    /** The operands of UPDATE and REPLACE: the field names and two globals. */
    method PopOperands(n: nat) returns (ok: bool, fields: seq<string>)
      requires Valid() && PeekGlobal(stack.entries, n).Some? && PeekGlobal(stack.entries, n + 1).Some?
      modifies stack`entries
      ensures Valid() && stack.entries <= old(stack.entries)
      ensures match PopNames(n, old(stack.entries))
              case NamesError(st) => !ok && stack.entries == st
              case Names(names, st) => ok && fields == names && |st| >= 2 && stack.entries == Drop(Drop(st))
      ensures ok ==> |stack.entries| + n + 2 == |old(stack.entries)|
    {
      hide PopNames;
      ghost var st0 := stack.entries;
      ok, fields := stack.PopFields(n);
      if ok {
        NamesLeave(n, st0);
        var dst := stack.PopGlobal();
        var src := stack.PopGlobal();
      }
    }

    /** The end of an instruction that worked on the facts. */
    method Finish(err: int, ghost s: State, ghost st: seq<Value>, ghost e: Effect<()>) returns (sig: Signal)
      requires Valid() && Now() == s.(m := s.m.(stack := st, w := facts.w))
      requires e == if err != 0 then Error(err, facts.w) else Done((), facts.w)
      modifies this`pc, this`ninstr, this`nsize
      ensures Valid() && Shows(sig, AfterEffect(cfg, s, st, e)) && (sig == Go <==> err == 0)
    {
      if err != 0 {
        return Raise(err);
      }
      Advance(1);
      return Go;
    }

    /** The field names off the stack, and then the two globals. */
    method UpdateOperands(n: nat, s: Global, d: Global) returns (ok: bool, fields: seq<string>)
      requires Valid() && PeekGlobal(stack.entries, n) == Some(d) && PeekGlobal(stack.entries, n + 1) == Some(s)
      modifies stack`entries
      ensures Valid() && HeldBy(stack.entries) <= HeldBy(old(stack.entries))
      ensures ok <==> PopNames(n, old(stack.entries)).Names?
      ensures !ok ==> PopNames(n, old(stack.entries)) == NamesError(stack.entries)
      ensures ok ==>
                && var names := PopNames(n, old(stack.entries));
                && names.fields == fields && |names.stack| >= 2 && stack.entries == Drop(Drop(names.stack))
                && HeldBy(stack.entries) + (multiset(s.facts) + multiset(d.facts)) <= HeldBy(old(stack.entries))
    {
      hide PopNames, HeldBy;
      ghost var st0 := stack.entries;
      ok, fields := PopOperands(n);
      HeldLess(stack.entries, st0);
      if ok {
        TwoHeld(st0, |stack.entries|, s, d);
        assert st0[..|stack.entries|] == stack.entries;
      }
    }

    /** vm_instr_update.  Once the operands are off the stack, every reference the
        two globals hold is released once, whether it raises or not. */
    method DoUpdate(n: int, partial: bool) returns (sig: Signal)
      requires Valid() && !StepUpdate(cfg, Now(), n, partial).Wild?
      modifies this`pc, this`ninstr, this`nsize, stack`entries, facts`w, facts`writes, facts`released
      ensures Valid() && Shows(sig, StepUpdate(cfg, old(Now()), n, partial))
      ensures old(Solvent()) ==> Solvent()
      ensures var d, s := PeekGlobal(old(stack.entries), n), PeekGlobal(old(stack.entries), n + 1);
              d.Some? && s.Some? && n >= 0 && PopNames(n, old(stack.entries)).Names? ==>
                facts.released == old(facts.released) + multiset(s.value.facts) + multiset(d.value.facts)
    {
      hide PopNames, UpdateAll, Live, AfterEffect, HeldBy, Held, Unglobal;
      ghost var s0, rel0 := Now(), facts.released;
      var dval := stack.Peek(n);
      if dval.None? {
        return Raise(ENOENT);
      }
      var sval := stack.Peek(n + 1);
      if sval.None? {
        return Raise(ENOENT);
      }
      var ok, fields := UpdateOperands(n, sval.value, dval.value);
      if !ok {
        return Raise(ENOENT);
      }
      ghost var both := multiset(sval.value.facts) + multiset(dval.value.facts);
      Paid(rel0, rel0 + both, HeldBy(s0.m.stack), HeldBy(stack.entries), both);
      UpdateDefined(s0, n, partial);
      var err := UpdateFacts(sval.value, dval.value, fields, partial);
      sig := Finish(err, s0, stack.entries, UpdateAll(s0.m.w, sval.value.facts, dval.value.facts, fields, partial));
    }

    /** The part of UPDATE that works on the facts. */
    method UpdateFacts(s: Global, d: Global, fields: seq<string>, partial: bool) returns (err: int)
      requires !UpdateAll(facts.w, s.facts, d.facts, fields, partial).Undefined?
      modifies facts`w, facts`writes, facts`released
      ensures UpdateAll(old(facts.w), s.facts, d.facts, fields, partial)
           == if err == 0 then Done((), facts.w) else Error(err, facts.w)
      ensures facts.released == old(facts.released) + multiset(s.facts) + multiset(d.facts)
    {
      hide UpdateAll, Live;
      var dst := new GlobalObj(d.facts);
      var src := new GlobalObj(s.facts);
      err := facts.Update(src, dst, fields, partial);
    }

    lemma UpdateDefined(s: State, n: nat, partial: bool)
      requires !StepUpdate(cfg, s, n, partial).Wild?
      requires PeekGlobal(s.m.stack, n).Some? && PeekGlobal(s.m.stack, n + 1).Some? && PopNames(n, s.m.stack).Names?
      ensures !UpdateAll(s.m.w, PeekGlobal(s.m.stack, n + 1).value.facts, PeekGlobal(s.m.stack, n).value.facts,
                         PopNames(n, s.m.stack).fields, partial).Undefined?
    {
      hide PopNames, UpdateAll, PeekGlobal;
    }

    /** REPLACE finds its globals but not the name of the destinations or the match
        fields. */
    ghost predicate Unnamed(s: State, n: int) {
      var d, src := PeekGlobal(s.m.stack, n), PeekGlobal(s.m.stack, n + 1);
      d.Some? && src.Some? && n >= 0 && (ReplaceName(s.m.w, d.value).None? || PopNames(n, s.m.stack).NamesError?)
    }

    /** The name and the operands of REPLACE.  Without them the two globals are freed
        while the stack still holds them. */
    method ReplaceOperands(n: nat, s: Global, d: Global) returns (err: int, name: string, fields: seq<string>)
      requires Valid() && PeekGlobal(stack.entries, n) == Some(d) && PeekGlobal(stack.entries, n + 1) == Some(s)
      modifies stack`entries, facts`released
      ensures Valid() && stack.entries <= old(stack.entries)
      ensures err != 0 <==> Unnamed(old(Now()), n)
      ensures err != 0 ==> facts.released == old(facts.released) + (multiset(s.facts) + multiset(d.facts))
                           && |old(stack.entries)| - n <= |stack.entries|
      ensures err == 0 ==>
                && facts.released == old(facts.released) && ReplaceName(facts.w, d) == Some(name)
                && var names := PopNames(n, old(stack.entries));
                && names.Names? && names.fields == fields
                && |names.stack| >= 2 && stack.entries == Drop(Drop(names.stack))
                && HeldBy(stack.entries) + (multiset(s.facts) + multiset(d.facts)) <= HeldBy(old(stack.entries))
    {
      hide PopNames, ReplaceName, HeldBy;
      ghost var st0 := stack.entries;
      name, fields := "", [];
      var found := ReplaceName(facts.w, d);
      if found.None? {
        facts.Release(s);
        facts.Release(d);
        return EINVAL, name, fields;
      }
      var ok;
      ok, fields := PopOperands(n);
      if !ok {
        NamesAbove(n, st0);
        facts.Release(s);
        facts.Release(d);
        return ENOENT, name, fields;
      }
      TwoHeld(st0, |stack.entries|, s, d);
      assert st0[..|stack.entries|] == stack.entries;
      return 0, found.value, fields;
    }

    /** vm_instr_replace.  Once the operands are off the stack, every reference the
        two globals hold is released once, or handed to the fact store.  If it does not
        get that far, the two globals are released while the stack still holds them. */
    method DoReplace(n: int) returns (sig: Signal, ghost left: seq<Ref>)
      requires Valid() && (StepReplace(cfg, Now(), n).Wild? ==> Unnamed(Now(), n))
      modifies this`pc, this`ninstr, this`nsize, stack`entries, facts
      ensures Valid() && Shows(sig, StepReplace(cfg, old(Now()), n)) && facts.taken == old(facts.taken)
      ensures old(Solvent()) && !Unnamed(old(Now()), n) ==> Solvent()
      ensures var d, s := PeekGlobal(old(stack.entries), n), PeekGlobal(old(stack.entries), n + 1);
              d.Some? && s.Some? ==>
                facts.released + multiset(left)
                == old(facts.released) + (multiset(s.value.facts) + multiset(d.value.facts))
      ensures Unnamed(old(Now()), n) ==>
                && StepReplace(cfg, old(Now()), n).Wild? && sig.Raise? && left == []
                && stack.entries <= old(stack.entries) && |old(stack.entries)| - n <= |stack.entries|
    {
      hide PopNames, ReplaceAll, ReplaceName, AfterEffect, HeldBy, Held, Unglobal;
      ghost var s0, rel0 := Now(), facts.released;
      left := [];
      var dval := stack.Peek(n);
      if dval.None? {
        return Raise(ENOENT), left;
      }
      var sval := stack.Peek(n + 1);
      if sval.None? {
        return Raise(ENOENT), left;
      }
      var err, name, fields := ReplaceOperands(n, sval.value, dval.value);
      if err != 0 {
        return Raise(err), left;
      }
      ghost var both := multiset(sval.value.facts) + multiset(dval.value.facts);
      Paid(rel0, rel0 + both, HeldBy(s0.m.stack), HeldBy(stack.entries), both);
      ReplaceDefined(s0, n);
      err, left := ReplaceFacts(sval.value, dval.value, fields, name);
      assert facts.released <= facts.released + multiset(left) == rel0 + both;
      sig := Finish(err, s0, stack.entries, ReplaceAll(s0.m.w, sval.value.facts, dval.value.facts, fields, name));
    }

    /** The part of REPLACE that works on the facts. */
    method ReplaceFacts(s: Global, d: Global, fields: seq<string>, name: string)
      returns (err: int, ghost left: seq<Ref>)
      requires !ReplaceAll(facts.w, s.facts, d.facts, fields, name).Undefined?
      modifies facts
      ensures ReplaceAll(old(facts.w), s.facts, d.facts, fields, name)
           == if err == 0 then Done((), facts.w) else Error(err, facts.w)
      ensures facts.released + multiset(left) == old(facts.released) + (multiset(s.facts) + multiset(d.facts))
      ensures facts.taken == old(facts.taken)
    {
      hide ReplaceAll, Live;
      var dst := new GlobalObj(d.facts);
      var src := new GlobalObj(s.facts);
      err, left := facts.Replace(src, dst, fields, name);
    }

    lemma ReplaceDefined(s: State, n: nat)
      requires StepReplace(cfg, s, n).Wild? ==> Unnamed(s, n)
      requires PeekGlobal(s.m.stack, n).Some? && PeekGlobal(s.m.stack, n + 1).Some? && PopNames(n, s.m.stack).Names?
      requires ReplaceName(s.m.w, PeekGlobal(s.m.stack, n).value).Some?
      ensures !ReplaceAll(s.m.w, PeekGlobal(s.m.stack, n + 1).value.facts, PeekGlobal(s.m.stack, n).value.facts,
                          PopNames(n, s.m.stack).fields,
                          ReplaceName(s.m.w, PeekGlobal(s.m.stack, n).value).value).Undefined?
    {
      hide PopNames, ReplaceAll, ReplaceName, PeekGlobal;
    }

    // ----------------------------------------------------------------
    // SET, SET FIELD, GET FIELD, GET LOCAL
    // ----------------------------------------------------------------

    /** Copies of the sources go to the fact store. */
    method InsertDups(src: seq<Ref>, name: string)
      modifies facts`w
      ensures facts.w == InsertCopies(old(facts.w), src, name)
    {
      ghost var w0 := facts.w;
      for i := 0 to |src|
        invariant facts.w == InsertCopies(w0, src[..i], name)
      {
        facts.InsertDup(src[i], name);
        assert src[..i + 1][..i] == src[..i];
      }
      assert src[..|src|] == src;
    }

    method CopyPairs(src: seq<Ref>, dst: seq<Ref>)
      requires |src| == |dst|
      modifies facts`w, facts`writes
      ensures facts.w == CopyEach(old(facts.w), src, dst)
    {
      ghost var w0 := facts.w;
      for i := 0 to |src|
        invariant facts.w == CopyEach(w0, src[..i], dst[..i])
      {
        facts.FactCopy(dst[i], src[i]);
        assert src[..i + 1][..i] == src[..i] && dst[..i + 1][..i] == dst[..i];
      }
      assert src[..|src|] == src && dst[..|dst|] == dst;
    }

    /** The assignment of SET. */
    method AssignGlobal(s: Global, d: Global) returns (err: int)
      modifies facts`w, facts`writes
      ensures SetGlobal(old(facts.w), s, d) == if err == 0 then Done((), facts.w) else Error(err, facts.w)
    {
      hide InsertCopies, CopyEach;
      if d.IsName() {
        if |s.facts| == 1 && facts.w.Of(s.facts[0]).name == UNNAMED {
          facts.StoreInsert(s.facts[0], d.name.value);
        } else {
          InsertDups(s.facts, d.name.value);
        }
      } else {
        if |s.facts| != |d.facts| {
          return EINVAL;
        }
        CopyPairs(s.facts, d.facts);
      }
      return 0;
    }

    /** The part of SET after its operands are off the stack: both globals are released,
        except that nobody does when their dimensions differ. */
    method AssignAndRelease(s: Global, d: Global) returns (err: int)
      modifies facts`w, facts`writes, facts`released
      ensures SetGlobal(old(facts.w), s, d) == if err == 0 then Done((), facts.w) else Error(err, facts.w)
      ensures facts.released == old(facts.released)
                + if err == 0 then multiset(s.facts) + multiset(d.facts) else multiset{}
    {
      hide SetGlobal;
      err := AssignGlobal(s, d);
      if err == 0 {
        facts.Release(s);
        facts.Release(d);
      }
    }

    /** The operands of SET: the destination and then the source.  A destination without
        a source is freed. */
    method PopGlobals() returns (ok: bool, s: Global, d: Global)
      requires Valid()
      modifies stack`entries, facts`released
      ensures Valid()
      ensures var st := old(stack.entries);
              if st == [] || !Top(st).Glob? then !ok && stack.entries == st
              else if Drop(st) == [] || !Top(Drop(st)).Glob? then !ok && stack.entries == Drop(st)
              else ok && d == Top(st).g && s == Top(Drop(st)).g && stack.entries == Drop(Drop(st))
      ensures ok <==> |old(stack.entries)| >= 2 && Top(old(stack.entries)).Glob? && Top(Drop(old(stack.entries))).Glob?
      ensures !ok ==> Owed() <= old(Owed())
      ensures ok ==> facts.released == old(facts.released)
                     && HeldBy(stack.entries) + (multiset(s.facts) + multiset(d.facts)) <= HeldBy(old(stack.entries))
    {
      hide HeldBy;
      ok, s, d := false, Global(None, []), Global(None, []);
      PopTwo(stack.entries);
      var dst := stack.PopGlobal();
      if dst.None? {
        return;
      }
      var src := stack.PopGlobal();
      if src.None? {
        ghost var one := multiset(dst.value.facts);
        Paid(facts.released, facts.released + one, HeldBy(old(stack.entries)), HeldBy(stack.entries), one);
        facts.Release(dst.value);
        return;
      }
      ghost var st := old(stack.entries);
      TwoHeld(st, |st| - 2, src.value, dst.value);
      assert st[..|st| - 2] == stack.entries;
      return true, src.value, dst.value;
    }

    /** vm_instr_set_var. */
    method DoSet() returns (sig: Signal)
      requires Valid()
      modifies this`pc, this`ninstr, this`nsize, stack`entries, facts`w, facts`writes, facts`released
      ensures Valid() && Shows(sig, StepSet(cfg, old(Now())))
      ensures old(Solvent()) ==> Solvent()
      ensures var st := old(stack.entries);
              |st| >= 2 && Top(st).Glob? && Top(Drop(st)).Glob? ==>
                facts.released == old(facts.released)
                  + if sig == Go then multiset(Top(Drop(st)).g.facts) + multiset(Top(st).g.facts) else multiset{}
    {
      hide SetGlobal, Balanced, HeldBy, Held, AfterEffect, Top, Drop;
      ghost var s0, rel0, st0 := Now(), facts.released, stack.entries;
      var ok, s, d := PopGlobals();
      if !ok {
        BalancedMove(rel0, st0, facts.released, stack.entries, facts.taken, scope);
        return Raise(ENOENT);
      }
      ghost var w0 := facts.w;
      var err := AssignAndRelease(s, d);
      ghost var both := multiset(s.facts) + multiset(d.facts);
      PaidOrNot(rel0, facts.released, HeldBy(st0), HeldBy(stack.entries), both, err == 0);
      BalancedMove(rel0, st0, facts.released, stack.entries, facts.taken, scope);
      sig := Finish(err, s0, stack.entries, SetGlobal(w0, s, d));
    }

    /** The operands of SET FIELD and GET FIELD: a field name and a global. */
    method PopFieldOf() returns (ok: bool, field: string, g: Global)
      requires Valid()
      modifies stack`entries
      ensures Valid()
      ensures var st := old(stack.entries);
              if st == [] || !Top(st).Str? then !ok && stack.entries == st
              else if Drop(st) == [] || !Top(Drop(st)).Glob? then !ok && stack.entries == Drop(st)
              else ok && field == Top(st).s && g == Top(Drop(st)).g && stack.entries == Drop(Drop(st))
      ensures HeldBy(stack.entries) + (if ok then multiset(g.facts) else multiset{}) <= HeldBy(old(stack.entries))
    {
      hide HeldBy;
      ok, field, g := false, "", Global(None, []);
      PopTwo(stack.entries);
      var name := stack.PopString();
      if name.None? {
        return;
      }
      var global := stack.PopGlobal();
      if global.None? {
        return;
      }
      return true, name.value, global.value;
    }

    /** The part of SET FIELD after its operands are off the stack. */
    method AssignField(g: Global, field: string, v: Value) returns (err: int)
      requires !SetFieldOf(facts.w, g, field, v).Undefined?
      modifies facts`w, facts`writes, facts`released
      ensures SetFieldOf(old(facts.w), g, field, v) == if err == 0 then Done((), facts.w) else Error(err, facts.w)
      ensures facts.released == old(facts.released)
                + if |g.facts| == 1 && AsField(v).None? then multiset{} else multiset(g.facts)
    {
      if |g.facts| < 1 {
        facts.Release(g);
        return ENOENT;
      }
      if |g.facts| > 1 {
        facts.Release(g);
        return EINVAL;
      }
      var f := AsField(v);
      if f.None? {
        return EINVAL;
      }
      var fields := facts.w.FieldsOf(g.facts[0]);
      SetIsWith(facts.w, g.facts[0], field, f.value);
      if !FieldMatches(fields, field, f.value) {
        facts.SetField(g.facts[0], field, f.value);
      }
      facts.Release(g);
      return 0;
    }

    /** vm_instr_set_field.  The global is released, except that nobody does when the
        value has a type that facts do not have. */
    method DoSetField() returns (sig: Signal)
      requires Valid() && !StepSetField(cfg, Now()).Wild?
      modifies this`pc, this`ninstr, this`nsize, stack`entries, facts`w, facts`writes, facts`released
      ensures Valid() && Shows(sig, StepSetField(cfg, old(Now())))
      ensures old(Solvent()) ==> Solvent()
      ensures var st := old(stack.entries);
              |st| >= 2 && Top(st).Str? && Top(Drop(st)).Glob? ==>
                facts.released == old(facts.released)
                  + if |Top(Drop(st)).g.facts| == 1 && AsField(PopAny(Drop(Drop(st))).0).None? then multiset{}
                    else multiset(Top(Drop(st)).g.facts)
    {
      hide Balanced, HeldBy, Held, AsField, SetFieldOf, AfterEffect, PopAny;
      ghost var s0, rel0, st0 := Now(), facts.released, stack.entries;
      var ok, field, g := PopFieldOf();
      if !ok {
        LessOwed(rel0, HeldBy(stack.entries), HeldBy(st0));
        BalancedMove(rel0, st0, rel0, stack.entries, facts.taken, scope);
        return Raise(EINVAL);
      }
      ghost var st2 := stack.entries;
      var v := stack.PopValue();
      HeldLess(stack.entries, st2);
      ghost var w0 := facts.w;
      SetFieldDefined(s0);
      var err := AssignField(g, field, v);
      PaidOrNot(rel0, facts.released, HeldBy(st0), HeldBy(stack.entries), multiset(g.facts),
                |g.facts| != 1 || AsField(v).Some?);
      BalancedMove(rel0, st0, facts.released, stack.entries, facts.taken, scope);
      sig := Finish(err, s0, stack.entries, SetFieldOf(w0, g, field, v));
    }

    lemma SetFieldDefined(s: State)
      requires !StepSetField(cfg, s).Wild?
      requires |s.m.stack| >= 2 && Top(s.m.stack).Str? && Top(Drop(s.m.stack)).Glob?
      ensures !SetFieldOf(s.m.w, Top(Drop(s.m.stack)).g, Top(s.m.stack).s, PopAny(Drop(Drop(s.m.stack))).0).Undefined?
    {
      hide SetFieldOf, PopAny;
    }

    /** vm_instr_get_field.  The global is released however it ends. */
    method DoGetField() returns (sig: Signal)
      requires Valid()
      modifies this`pc, this`ninstr, this`nsize, stack`entries, facts`released
      ensures Valid() && Shows(sig, StepGetField(cfg, old(Now())))
      ensures old(Solvent()) ==> Solvent()
      ensures var st := old(stack.entries);
              |st| >= 2 && Top(st).Str? && Top(Drop(st)).Glob? ==>
                facts.released == old(facts.released) + multiset(Top(Drop(st)).g.facts)
    {
      hide Balanced, HeldBy, Held, GetFieldOf;
      ghost var rel0, st0 := facts.released, stack.entries;
      var ok, field, g := PopFieldOf();
      if !ok {
        LessOwed(rel0, HeldBy(stack.entries), HeldBy(st0));
        BalancedMove(rel0, st0, rel0, stack.entries, facts.taken, scope);
        return Raise(EINVAL);
      }
      var got := GetFieldOf(facts.w, g, field);
      FieldsOnly(facts.w, g, field);
      Paid(rel0, rel0 + multiset(g.facts), HeldBy(st0), HeldBy(stack.entries), multiset(g.facts));
      BalancedMove(rel0, st0, rel0 + multiset(g.facts), stack.entries, facts.taken, scope);
      if got.Error? {
        facts.Release(g);
        return Raise(got.err);
      }
      BalancedPush(rel0 + multiset(g.facts), stack.entries, got.val, facts.taken, scope);
      ok := stack.Push(got.val);
      facts.Release(g);
      Advance(1);
      return Go;
    }

    /** vm_instr_get_local. */
    method DoGetLocal(idx: nat) returns (sig: Signal)
      requires Valid()
      modifies this`pc, this`ninstr, this`nsize, stack`entries
      ensures Valid() && Shows(sig, StepGetLocal(cfg, old(Now()), idx))
      ensures old(Solvent()) ==> Solvent()
    {
      hide Balanced;
      BalancedUnglobal(facts.released, stack.entries, facts.taken, scope);
      var v := GetLocal(idx);
      BalancedPush(facts.released, stack.entries, v, facts.taken, scope);
      var ok := stack.Push(v);
      if !ok {
        return Raise(ENOMEM);
      }
      Advance(1);
      return Go;
    }

    // ----------------------------------------------------------------
    // CALL, CMP, BRANCH
    // ----------------------------------------------------------------

    /** What the handler of a method makes of the arguments on the stack. */
    ghost function Reply(name: string, narg: nat): CallResult
      requires narg <= |stack.entries|
      reads this, stack, facts
    {
      var st := stack.entries;
      cfg.handler(name, st[|st| - narg..], scope, |st|, stack.nalloc, facts.w.(calls := facts.w.calls + 1))
    }

    /** vm_method_call: the handler sees its arguments on the stack, which is rid of
        them afterwards, with the globals among them freed, and gets the value of the
        handler if that succeeded. */
    method CallMethod(name: string, narg: nat) returns (status: int)
      requires Valid() && narg <= |stack.entries| < stack.nalloc
      requires !DanglingAmong(facts.w, stack.entries[|stack.entries| - narg..]) && !Reply(name, narg).Crashed?
      modifies stack, facts`w, facts`released, facts`taken
      ensures Valid() && (old(Solvent()) ==> Solvent())
      ensures facts.released == old(facts.released) + HeldBy(old(stack.entries)[|old(stack.entries)| - narg..])
      ensures var st, cap, r := old(stack.entries), old(stack.nalloc), old(Reply(name, narg));
              && status == r.status && facts.w == r.w
              && stack.nalloc == (if r.cap > cap then r.cap else cap)
              && stack.entries == st[..|st| - narg] + if r.status > 0 then [r.value] else []
    {
      hide Balanced, HeldBy, Held;
      ghost var st0, rel0, below := stack.entries, facts.released, stack.entries[..|stack.entries| - narg];
      HeldSplit(st0, |st0| - narg);
      Paid(rel0, rel0 + HeldBy(st0[|st0| - narg..]), HeldBy(st0), HeldBy(below), HeldBy(st0[|st0| - narg..]));
      BalancedMove(rel0, st0, rel0 + HeldBy(st0[|st0| - narg..]), below, facts.taken, scope);
      var args := stack.entries[|stack.entries| - narg..];
      var r := cfg.handler(name, args, scope, |stack.entries|, stack.nalloc, facts.w.(calls := facts.w.calls + 1));
      status, facts.w := r.status, r.w;
      if r.cap > stack.nalloc {
        stack.nalloc := r.cap;
      }
      stack.Cleanup(narg, facts);
      if status > 0 {
        BalancedPush(facts.released, stack.entries, r.value, facts.taken, scope);
        facts.Take(r.value);
        var ok := stack.Push(r.value);
      }
    }

    /** vm_instr_call. */
    method DoCall(n: int) returns (sig: Signal)
      requires Valid() && !StepCall(cfg, Now(), n).Wild?
      modifies this`pc, this`ninstr, this`nsize, stack, facts`w, facts`released, facts`taken
      ensures Valid() && Shows(sig, StepCall(cfg, old(Now()), n))
      ensures old(Solvent()) ==> Solvent()
    {
      hide Balanced, HeldBy;
      ghost var st0 := stack.entries;
      var id := stack.Pop();
      BalancedBelow(facts.released, stack.entries, st0, facts.taken, scope);
      if id.None? || !(id.value.Str? || id.value.Int?) {
        return Raise(EINVAL);
      }
      var name := MethodName(cfg, id.value);
      stack.MakeRoom(n);
      if |stack.entries| < n {
        return Raise(ENOENT);
      }
      var status := CallMethod(name, n);
      if status < 0 {
        return Raise(status);
      } else if status == 0 {
        return Fail;
      }
      Advance(1);
      return Go;
    }

    /** An operand off the stack, and its global released. */
    method TakeOperand() returns (v: Option<Value>)
      requires Valid()
      modifies stack`entries, facts`released
      ensures Valid() && (old(Solvent()) ==> Solvent())
      ensures old(stack.entries) == [] ==> v.None? && stack.entries == [] && facts.released == old(facts.released)
      ensures old(stack.entries) != [] ==>
                && v == Some(Top(old(stack.entries))) && stack.entries == Drop(old(stack.entries))
                && facts.released == old(facts.released) + Held(v.value)
    {
      hide Held, Balanced;
      ghost var st0 := stack.entries;
      v := stack.Pop();
      if v.Some? {
        BalancedPop(facts.released, st0, facts.taken, scope);
        facts.ReleaseValue(v.value);
      }
    }

    /** The result of CMP. */
    method PushResult(r: Option<Value>) returns (sig: Signal)
      requires Valid() && |stack.entries| < stack.nalloc && (r.Some? ==> Held(r.value) == multiset{})
      modifies this`pc, this`ninstr, this`nsize, stack`entries
      ensures Valid() && (old(Solvent()) ==> Solvent())
      ensures r.None? ==> sig == Raise(EINVAL) && Now() == old(Now())
      ensures r.Some? ==>
                && sig == Go
                && Machine.Advance(cfg, old(Now()), 1, old(Mem()).(stack := old(stack.entries) + [r.value]))
                   == Next(Now())
    {
      hide Held, Balanced;
      if r.None? {
        return Raise(EINVAL);
      }
      BalancedPush(facts.released, stack.entries, r.value, facts.taken, scope);
      var ok := stack.Push(r.value);
      Advance(1);
      return Go;
    }

    /** CMP with VM_RELOP_NOT. */
    method NegateTop() returns (sig: Signal)
      requires Valid() && stack.entries != []
      modifies this`pc, this`ninstr, this`nsize, stack`entries, facts`released
      ensures Valid() && Shows(sig, StepCmp(cfg, old(Now()), RELOP_NOT)) && (old(Solvent()) ==> Solvent())
      ensures facts.released == old(facts.released) + Held(Top(old(stack.entries)))
    {
      hide Negate, Balanced, Held, Top;
      var a := TakeOperand();
      NumbersOnly(RELOP_NOT, a.value, a.value);
      sig := PushResult(Negate(a.value));
    }

    /** CMP with two operands. */
    method CompareTop(op: nat) returns (sig: Signal)
      requires Valid() && op != RELOP_NOT && |stack.entries| >= 2 && !StepCmp(cfg, Now(), op).Wild?
      modifies this`pc, this`ninstr, this`nsize, stack`entries, facts`released
      ensures Valid() && Shows(sig, StepCmp(cfg, old(Now()), op)) && (old(Solvent()) ==> Solvent())
      ensures var st := old(stack.entries);
              facts.released == old(facts.released) + Held(Top(st)) + Held(Top(Drop(st)))
    {
      hide Compare, Balanced, Held, DanglingPair, Top;
      var a := TakeOperand();
      var b := TakeOperand();
      NumbersOnly(op, a.value, b.value);
      sig := PushResult(Compare(op, a.value, b.value));
    }

    /** vm_instr_cmp.  The globals compared are released however it ends. */
    method DoCmp(op: nat) returns (sig: Signal)
      requires Valid() && !StepCmp(cfg, Now(), op).Wild?
      modifies this`pc, this`ninstr, this`nsize, stack`entries, facts`released
      ensures Valid() && Shows(sig, StepCmp(cfg, old(Now()), op))
      ensures old(Solvent()) ==> Solvent()
      ensures var st := old(stack.entries);
              facts.released == old(facts.released) + (if st == [] then multiset{} else Held(Top(st)))
                + (if op == RELOP_NOT || |st| < 2 then multiset{} else Held(Top(Drop(st))))
    {
      hide Compare, Negate, Balanced, Held, DanglingPair, Top;
      if |stack.entries| == 0 {
        return Raise(ENOENT);
      }
      if op == RELOP_NOT {
        sig := NegateTop();
      } else if |stack.entries| == 1 {
        var a := TakeOperand();
        sig := Raise(ENOENT);
      } else {
        sig := CompareTop(op);
      }
    }

    /** vm_instr_branch.  A global tested is released. */
    method DoBranch(kind: nat, diff: int) returns (sig: Signal)
      requires Valid() && !StepBranch(cfg, Now(), kind, diff).Wild?
      modifies this`pc, stack`entries, facts`released
      ensures Valid() && Shows(sig, StepBranch(cfg, old(Now()), kind, diff))
      ensures old(Solvent()) ==> Solvent()
      ensures facts.released == old(facts.released)
                + if BRANCH_ALWAYS != kind && kind <= BRANCH_NE && old(stack.entries) != []
                  then Held(Top(old(stack.entries)))
                  else multiset{}
    {
      hide Truth, Balanced, Held, Dangling;
      var branch := true;
      if kind != BRANCH_ALWAYS {
        if kind > BRANCH_NE {
          return Raise(EINVAL);
        }
        var v := TakeOperand();
        if v.None? {
          return Raise(ENOENT);
        }
        var truth := Truth(v.value);
        if truth.None? {
          return Raise(EINVAL);
        }
        branch := if kind == BRANCH_NE then !truth.value else truth.value;
      }
      if !branch {
        pc := pc + 1;
        return Go;
      }
      if diff > 0 && nsize < diff * cfg.width.Bytes() {
        return Raise(EOVERFLOW);
      }
      pc := pc + diff;
      return Go;
    }

    // ----------------------------------------------------------------
    // Runs
    // ----------------------------------------------------------------

    /** The switch of vm_run. */
    method Dispatch(i: Instr) returns (sig: Signal)
      requires Valid() && pc < |code| && !StepInstr(cfg, code, Now(), i).Wild?
      modifies this`pc, this`ninstr, this`nsize, this`scope, stack, facts
      ensures Valid() && Shows(sig, StepInstr(cfg, old(code), old(Now()), i))
      ensures old(Solvent()) ==> Solvent()
    {
      hide HeldBy, Unglobal, StepPush, StepPop, StepFilter, StepUpdate, StepReplace, StepSet, StepSetField,
           StepGetField, StepGetLocal,
           StepCall, StepCmp, StepBranch, PeekGlobal, FilterLoop, PopNames, ReplaceName, Top, Drop;
      match i {
        case PushInt(_) => sig := DoPush(i);
        case PushDouble => sig := DoPush(i);
        case PushString(_) => sig := DoPush(i);
        case PushGlobal(_) => sig := DoPush(i);
        case PushLocals(_) => sig := DoPush(i);
        case BadPush => sig := Raise(EINVAL);
        case PopLocals => sig := DoPop(i);
        case PopDiscard => sig := DoPop(i);
        case BadPop => sig := Raise(EINVAL);
        case Filter(n) => ghost var kept, table; sig, kept, table := DoFilter(n);
        case Update(n, partial) => sig := DoUpdate(n, partial);
        case Replace(n) => ghost var left; sig, left := DoReplace(n);
        case SetVar => sig := DoSet();
        case SetField => sig := DoSetField();
        case GetField => sig := DoGetField();
        case GetLocal(idx) => sig := DoGetLocal(idx);
        case Call(n) => sig := DoCall(n);
        case Cmp(op) => sig := DoCmp(op);
        case Branch(kind, diff) => sig := DoBranch(kind, diff);
        case Halt => sig := Stop;
        case Unmodelled => sig := Go;
        case Illegal => sig := Raise(EILSEQ);
      }
    }

    /** What the end of vm_run's loop means. */
    ghost predicate Ended(sig: Signal, base: Catch, f: Final)
      reads this, stack, facts
    {
      match sig
      case Go => f == Ran(false, Mem())
      case Stop => f == Ran(true, Mem())
      case Raise(err) => f == Threw(err, Unwind(base, Mem()))
      case Fail => f == Gave(Unwind(base, Mem()))
    }

    /** vm_run. */
    method Run(ghost base: Catch) returns (sig: Signal)
      requires Valid() && !Exec(cfg, code, base, Now()).Stuck?
      modifies this`pc, this`ninstr, this`nsize, this`scope, stack, facts
      ensures Valid() && Ended(sig, base, Exec(cfg, code, base, old(Now())))
      ensures old(Solvent()) ==> Solvent()
    {
      hide StepInstr, Decode, Unwind, HeldBy, Unglobal;
      ghost var f := Exec(cfg, code, base, Now());
      while ninstr > 0
        invariant Valid() && Exec(cfg, code, base, Now()) == f
        invariant old(Solvent()) ==> Solvent()
        decreases |code| - pc
      {
        sig := Dispatch(Decode(code[pc].bits));
        if sig != Go {
          return;
        }
      }
      return Go;
    }

    /** What VM_TRY does once it has caught something: the stack is cut back to its
        depth, which frees the globals above it, and the scopes are popped. */
    method Cleanup(base: Catch)
      requires Valid()
      modifies this`scope, stack`entries, facts`released
      ensures Valid() && Mem() == Unwind(base, old(Mem()))
      ensures facts.released == old(facts.released)
                + if |old(stack.entries)| > base.depth then HeldBy(old(stack.entries)[base.depth..]) else multiset{}
      ensures old(Solvent()) ==> Solvent()
    {
      hide HeldBy;
      if |stack.entries| > base.depth {
        HeldSplit(stack.entries, base.depth);
        stack.Cleanup(|stack.entries| - base.depth, facts);
      }
      ghost var scope0 := scope;
      while scope != [] && |scope| != base.scopes
        invariant |scope| <= |scope0| && scope == scope0[..|scope|]
        invariant |scope0| >= base.scopes ==> |scope| >= base.scopes
        modifies this`scope
        decreases |scope|
      {
        scope := scope[..|scope| - 1];
      }
    }

    /** vm_exec: runs a chunk under VM_TRY.  Over the whole run and the unwinding, no
        reference is released more often than it has been taken. */
    method Execute(chunk: seq<Cell>, count: nat) returns (status: int)
      requires Valid() && !VmExec(cfg, chunk, count, Mem()).Stuck?
      modifies this`code, this`pc, this`ninstr, this`nsize, this`scope, this`caught, stack, facts
      ensures Valid() && caught == old(caught)
      ensures var f := VmExec(cfg, chunk, count, old(Mem())); status == Status(f) && Mem() == f.m
      ensures old(Solvent()) ==> Solvent()
    {
      hide Exec, Unwind, HeldBy, Unglobal;
      code, pc, ninstr, nsize := chunk, 0, count, |chunk| * cfg.width.Bytes();
      var base := Catch(|stack.entries|, |scope|);
      caught := caught + [base];
      var sig := Run(base);
      match sig {
        case Raise(err) =>
          Cleanup(base);
          status := if err > 0 then -err else err;
        case Fail =>
          Cleanup(base);
          status := 0;
        case _ =>
          status := 1;
      }
      caught := caught[..|caught| - 1];
    }

    // ----------------------------------------------------------------
    // Re-entrance
    // ----------------------------------------------------------------

    /** The loop of an update over the targets it has to run, without the
        transaction around it: their chunks one after the other, up to the first
        that does not succeed. */
    method RunChunks(chunks: seq<Option<(seq<Cell>, nat)>>, ghost bodies: seq<seq<Stmt>>) returns (status: int)
      requires Valid() && Compiled(cfg, chunks, bodies)
      requires !RunBodies(cfg, bodies, |stack.entries|, scope, stack.nalloc, facts.w).Bad?
      modifies this`code, this`pc, this`ninstr, this`nsize, this`scope, this`caught, stack, facts
      ensures Valid() && caught == old(caught) && scope == old(scope) && stack.entries == old(stack.entries)
      ensures Left(RunBodies(cfg, bodies, |stack.entries|, scope, old(stack.nalloc), old(facts.w)),
                   status, stack.nalloc, facts.w)
      ensures old(Solvent()) ==> Solvent()
    {
      hide VmExec, RunAll, HeldBy, Unglobal;
      status := 1;
      ghost var m0 := Mem();
      var i := 0;
      while i < |chunks|
        invariant 0 <= i <= |chunks| && Valid() && status == 1 && (old(Solvent()) ==> Solvent())
        invariant caught == old(caught) && scope == m0.scope && stack.entries == m0.stack
        invariant Reached(RunBodies(cfg, bodies[..i], |m0.stack|, m0.scope, m0.cap, m0.w), stack.nalloc, facts.w)
      {
        BodiesStep(cfg, bodies, i, m0);
        TargetCorrect(cfg, bodies[i], Mem());
        if chunks[i].Some? {
          status := Execute(chunks[i].value.0, chunks[i].value.1);
          if status <= 0 {
            return;
          }
        } else {
          NoActions(cfg, Mem());
        }
        i := i + 1;
      }
      assert bodies[..|bodies|] == bodies;
    }

    /** The way into dres_update_goal and back, from an instruction of a running chunk: the
        nested resolve changes the facts and nothing of the machine but the
        capacity of its stack, so that the interrupted chunk can go on. */
    method Reenter(chunks: seq<Option<(seq<Cell>, nat)>>, ghost bodies: seq<seq<Stmt>>) returns (status: int)
      requires Valid() && Compiled(cfg, chunks, bodies)
      requires !RunBodies(cfg, bodies, |stack.entries|, scope, stack.nalloc, facts.w).Bad?
      modifies this, stack, facts
      ensures Valid() && code == old(code) && caught == old(caught) && info == old(info)
      ensures Now() == old(Now()).(m := old(Mem()).(cap := stack.nalloc, w := facts.w))
      ensures Left(RunBodies(cfg, bodies, |stack.entries|, scope, old(stack.nalloc), old(facts.w)),
                   status, stack.nalloc, facts.w)
      ensures old(Solvent()) ==> Solvent()
    {
      hide HeldBy, Unglobal;
      var chunk0, pc0, ninstr0, nsize0, info0 := code, pc, ninstr, nsize, info;
      status := RunChunks(chunks, bodies);
      code, pc, ninstr, nsize, info := chunk0, pc0, ninstr0, nsize0, info0;
    }

    /** dres_builtin_dres.  `plan` says which actions resolving a goal runs, and `chunks`
        gives their code.  On a machine whose own calls of `dres` are answered for nesting
        up to `d`, the builtin gives the answer for nesting up to `d + 1`, and leaves the
        interrupted chunk as it was. */
    method BuiltinDres(args: seq<Value>, ghost config: Config, ghost plan: Plan, ghost d: nat,
                       chunks: Option<string> -> Option<seq<Option<(seq<Cell>, nat)>>>)
      returns (status: int, rv: Value)
      requires Valid() && cfg == config.(handler := DresHandler(config, plan, d))
      requires forall goal :: CodeOf(cfg, chunks(goal), plan(goal, facts.w))
      requires !DresHandler(config, plan, d + 1)("dres", args, scope, |stack.entries|, stack.nalloc, facts.w).Crashed?
      modifies this, stack, facts
      ensures DresHandler(config, plan, d + 1)("dres", args, scope, |stack.entries|, old(stack.nalloc), old(facts.w))
           == CallResult(status, rv, stack.nalloc, facts.w)
      ensures Valid() && code == old(code) && caught == old(caught) && info == old(info)
      ensures Now() == old(Now()).(m := old(Mem()).(cap := stack.nalloc, w := facts.w))
      ensures old(Solvent()) ==> Solvent()
    {
      hide RunBodies, HeldBy, Unglobal, DresHandler;
      DresAnswers(config, plan, d, args, scope, |stack.entries|, stack.nalloc, facts.w);
      var goal: Option<string> := None;
      if |args| >= 1 {
        if !args[0].Str? {
          return -EINVAL, Nil;
        }
        goal := Some(args[0].s);
      }
      var found := chunks(goal);
      assert CodeOf(cfg, found, plan(goal, facts.w));
      if found.None? {
        return -EINVAL, Int(-EINVAL);
      }
      status := Reenter(found.value, plan(goal, facts.w).value);
      rv := Int(status);
    }
  }

  lemma PopTwo(st: seq<Value>)
    ensures |st| >= 1 ==> HeldBy(st) == HeldBy(Drop(st)) + Held(Top(st))
    ensures |st| >= 2 ==> HeldBy(st) == HeldBy(Drop(Drop(st))) + Held(Top(Drop(st))) + Held(Top(st))
  {
  }

  /** vm_fact_set_field leaves a field alone that matches. */
  lemma SetIsWith(w: World, r: Ref, field: string, v: Field)
    ensures var f := w.FieldsOf(r);
            w.With(r, f[field := v])
            == if FieldMatches(f, field, v) then w else w.Write(r, f[field := v], {field} * f.Keys)
  {
    var f := w.FieldsOf(r);
    if FieldMatches(f, field, v) {
      assert f[field := v] == f && Differing(f, f) == {};
      WriteNothing(w, r);
    } else {
      assert Differing(f, f[field := v]) == {field} * f.Keys;
    }
  }

  lemma BindsNothing(nlocal: nat, st: seq<Value>, frame: Frame)
    ensures BindLocals(nlocal, 0, st, frame) == Bound(st, frame)
  {
  }

  lemma FilterLoopEnds(w: World, st: seq<Value>, refs: seq<Ref>, had: nat)
    ensures FilterLoop(w, 0, st, refs, had) == Kept(st, refs)
  {
  }

  lemma NumbersOnly(op: nat, a: Value, b: Value)
    ensures Negate(a).Some? ==> Held(Negate(a).value) == multiset{}
    ensures Compare(op, a, b).Some? ==> Held(Compare(op, a, b).value) == multiset{}
  {
  }

  lemma TwoHeld(st: seq<Value>, k: nat, a: Global, b: Global)
    requires k + 2 <= |st| && st[k] == Glob(a) && st[k + 1] == Glob(b)
    ensures HeldBy(st[..k]) + (multiset(a.facts) + multiset(b.facts)) <= HeldBy(st)
  {
    hide HeldBy;
    HeldTwo(st, k);
    assert HeldBy(st[..k]) + (Held(st[k]) + Held(st[k + 1])) == HeldBy(st[..k]) + Held(st[k]) + Held(st[k + 1]);
  }

  lemma GlobalHolds(g: Global)
    ensures Held(Glob(g)) == multiset(g.facts)
  {
  }

  lemma FieldsOnly(w: World, g: Global, field: string)
    ensures !GetFieldOf(w, g, field).Undefined?
    ensures GetFieldOf(w, g, field).Done? ==> Held(GetFieldOf(w, g, field).val) == multiset{}
  {
  }

  lemma LessOwed(rel: multiset<Ref>, held: multiset<Ref>, held0: multiset<Ref>)
    requires held + multiset{} <= held0
    ensures rel + held <= rel + held0
  {
    assert held + multiset{} == held;
  }

  lemma PaidOrNot(rel0: multiset<Ref>, rel: multiset<Ref>, held0: multiset<Ref>, held: multiset<Ref>, x: multiset<Ref>,
                  paid: bool)
    requires rel == rel0 + (if paid then x else multiset{}) && held + x <= held0
    ensures rel + held <= rel0 + held0
  {
    if paid {
      Paid(rel0, rel, held0, held, x);
    }
  }

  /** What is released has been held. */
  lemma Paid(rel0: multiset<Ref>, rel: multiset<Ref>, held0: multiset<Ref>, held: multiset<Ref>, x: multiset<Ref>)
    requires rel == rel0 + x && held + x <= held0
    ensures rel + held <= rel0 + held0
  {
    assert rel + held == rel0 + (held + x);
  }

  /** The chunks are what the compiler makes of the bodies; a target without actions has
      none, and running it succeeds (dres_run_actions). */
  ghost predicate Compiled(cfg: Config, chunks: seq<Option<(seq<Cell>, nat)>>, bodies: seq<seq<Stmt>>) {
    |chunks| == |bodies|
    && forall i | 0 <= i < |bodies| ::
         AcceptsStmts(cfg, bodies[i]) && FitsStmts(cfg, bodies[i])
         && chunks[i] == if bodies[i] == [] then None
                         else Some((TargetCode(cfg, bodies[i]).cells, TargetCode(cfg, bodies[i]).n))
  }

  /** The code of the actions that resolving a goal runs; none if there is no such goal. */
  ghost predicate CodeOf(cfg: Config, chunks: Option<seq<Option<(seq<Cell>, nat)>>>, bodies: Option<seq<seq<Stmt>>>) {
    if chunks.None? then bodies.None? else bodies.Some? && Compiled(cfg, chunks.value, bodies.value)
  }

  /** The status an evaluation comes down to, and what it leaves. */
  ghost predicate Left(r: Res<()>, status: int, cap: nat, w: World) {
    match r
    case Ok(_, c, v) => status == 1 && cap == c && w == v
    case Exn(err, c, v) => status == (if err > 0 then -err else err) && cap == c && w == v
    case Silent(c, v) => status == 0 && cap == c && w == v
    case Bad => false
  }

  ghost predicate Reached(r: Res<()>, cap: nat, w: World) {
    r.Ok? && r.cap == cap && r.w == w
  }

  /** The `i`-th body is run in what the ones before it leave, and decides if it
      does not succeed. */
  lemma BodiesStep(cfg: Config, bodies: seq<seq<Stmt>>, i: nat, m: Memory)
    requires i < |bodies|
    requires RunBodies(cfg, bodies[..i], |m.stack|, m.scope, m.cap, m.w).Ok?
    ensures var r := RunBodies(cfg, bodies[..i], |m.stack|, m.scope, m.cap, m.w);
            var r1 := RunAll(cfg, bodies[i], |m.stack|, m.scope, r.cap, r.w);
            RunBodies(cfg, bodies[..i + 1], |m.stack|, m.scope, m.cap, m.w) == r1
            && (!r1.Ok? ==> RunBodies(cfg, bodies, |m.stack|, m.scope, m.cap, m.w) == r1)
  {
    hide RunAll;
    assert bodies[..i + 1][..i] == bodies[..i];
    var r1 := RunBodies(cfg, bodies[..i + 1], |m.stack|, m.scope, m.cap, m.w);
    if !r1.Ok? {
      BodiesStuck(cfg, bodies, i + 1, m);
    }
  }

  lemma NoActions(cfg: Config, m: Memory)
    ensures RunAll(cfg, [], |m.stack|, m.scope, m.cap, m.w) == Ok((), m.cap, m.w)
  {
  }

  lemma {:induction false} BodiesStuck(cfg: Config, bodies: seq<seq<Stmt>>, i: nat, m: Memory)
    requires i <= |bodies| && !RunBodies(cfg, bodies[..i], |m.stack|, m.scope, m.cap, m.w).Ok?
    ensures RunBodies(cfg, bodies, |m.stack|, m.scope, m.cap, m.w)
         == RunBodies(cfg, bodies[..i], |m.stack|, m.scope, m.cap, m.w)
    decreases |bodies|
  {
    hide RunAll;
    if i < |bodies| {
      assert bodies[..|bodies| - 1][..i] == bodies[..i];
      BodiesStuck(cfg, bodies[..|bodies| - 1], i, m);
    } else {
      assert bodies[..i] == bodies;
    }
  }

  lemma NoneReleased(rel0: multiset<Ref>, rel: multiset<Ref>, had: multiset<Ref>, kept: multiset<Ref>)
    requires rel + kept == rel0 + had && rel0 <= rel && |had| <= |kept|
    ensures rel == rel0
  {
    assert |rel + kept| == |rel0 + had|;
    assert rel == rel0 + (rel - rel0) && |rel| == |rel0| + |rel - rel0|;
  }

  lemma Exchanged(rel0: multiset<Ref>, rel: multiset<Ref>, held0: multiset<Ref>, held: multiset<Ref>,
                  had: multiset<Ref>, kept: multiset<Ref>)
    requires rel + kept == rel0 + had && held + had == held0 + kept
    ensures rel + held == rel0 + held0
  {
    forall x ensures (rel + held)[x] == (rel0 + held0)[x] {
      assert (rel + kept)[x] == (rel0 + had)[x] && (held + had)[x] == (held0 + kept)[x];
    }
  }

  lemma OccupiedOnce(a: seq<Ref>, b: seq<Ref>)
    requires Occupied(a) == Occupied(b)
    ensures a == b
  {
    LiveOccupied(a);
    LiveOccupied(b);
  }
}
