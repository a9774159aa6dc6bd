/** How a goal is brought up to date (src/dres.c, src/target.c, src/variables.c,
    src/builtin.c): stamps, transactions, rollback, and goals resolved from
    within actions.

    What the actions of a run do is given as a script: the facts they write,
    the goals they resolve and the statuses they return, in the order in which
    these things happen.  Every run that comes to an end is the run of some
    script; one that ends too soon counts as an exception. */
module Protocol {
  import opened Words
  import opened Facts
  import opened Ids
  import opened Graph
  import Machine

  /** The stamp of a target or variable; `txstamp` is the one before `txid`. */
  datatype Stamps = Stamps(stamp: int, txid: int, txstamp: int) {
    /** dres_update_target_stamp, dres_update_var_stamp. */
    function Touch(id: int, now: int): Stamps {
      Stamps(now, id, if txid != id then stamp else txstamp)
    }

    /** What rolling back transaction `id` makes of it. */
    function Restore(id: int): Stamps {
      if txid == id then Stamps(txstamp, txid, txstamp) else this
    }

    /** The stamp before transaction `id`. */
    function Base(id: int): int {
      if txid == id then txstamp else stamp
    }
  }

  /** Writing facts reports changes of fact variables; resolving a goal is calling
      the builtin `dres`. */
  datatype Act = Write(facts: World, changed: seq<nat>) | Resolve(goal: Option<string>) | Return(status: int)

  /** A word of the argument list, and what it reads as: a pointer to a string or to a
      double, or an integer. */
  datatype Raw = Raw(s: string, i: int, d: real)

  /** An argument of dres_update_goal; without a tag it is a string. */
  datatype LocalArg = LocalArg(name: string, tag: Option<char>, word: Raw) {
    function Value(): Option<Value> {
      match tag
      case None => Some(Str(word.s))
      case Some(c) =>
        if c == 's' then Some(Str(word.s))
        else if c == 'i' then Some(Int(word.i))
        else if c == 'd' then Some(Dbl(word.d))
        else None
    }
  }

  /** The scope that push_locals fills, or the error that makes it drop the scope. */
  datatype Locals = Locals(frame: Machine.Frame) | NoLocals(err: int)

  /** The finalized rules: sorted dependencies, names, and which targets have code. */
  datatype System = System(rules: Rules, names: seq<string>, hasCode: seq<bool>, deps: seq<seq<Option<Id>>>,
                           locals: seq<string>)
  {
    predicate Sized() {
      && 0 < |rules.targets| == |names| == |hasCode| == |deps|
      && forall i, j | 0 <= i < |deps| && 0 <= j < |deps[i]| && deps[i][j].Some? && deps[i][j].value.kind == Target ::
           deps[i][j].value.index < |rules.targets|
    }

    /** dres_lookup_target once no targets can be added any more. */
    function Find(name: string, i: nat): (t: Option<nat>)
      requires Sized()
      ensures t.Some? ==> i <= t.value < |names| && names[t.value] == name && name !in names[i..t.value]
      ensures t.None? <==> forall k | i <= k < |names| :: names[k] != name
      decreases |names| - i
    {
      if i >= |names| then None else if names[i] == name then Some(i) else Find(name, i + 1)
    }

    function Lookup(goal: Option<string>): (t: Option<nat>)
      requires Sized()
      ensures t.Some? ==> t.value < |rules.targets| == |names|
    {
      match goal
      case None => Some(0)
      case Some(name) => Find(name, 0)
    }

    /** The goal of an update, if there is such a goal to update. */
    function Goal(goal: Option<string>): (t: Option<nat>)
      requires Sized()
      ensures t.Some? ==> t.value < |rules.targets| == |names|
    {
      var t := Lookup(goal);
      if t.Some? && !rules.targets[t.value].id.undefined then t else None
    }

    /** dres_dresvar_id: the index of the first variable of a name. */
    function LocalIndex(name: string, i: nat): (idx: Option<nat>)
      ensures idx.Some? ==> i <= idx.value < |locals| && locals[idx.value] == name && name !in locals[i..idx.value]
      ensures idx.Some? <==> exists k | i <= k < |locals| :: locals[k] == name
      decreases |locals| - i
    {
      if i >= |locals| then None else if locals[i] == name then Some(i) else LocalIndex(name, i + 1)
    }

    /** The loop of push_locals, with what has been set so far. */
    function BindFrom(args: seq<LocalArg>, frame: Machine.Frame): Locals {
      if args == [] then Locals(frame)
      else match (args[0].Value(), LocalIndex(args[0].name, 0))
           case (None, _) => NoLocals(EINVAL)
           case (_, None) => NoLocals(ENOENT)
           case (Some(v), Some(idx)) =>
             match Machine.ScopeSet(|locals|, frame, idx, v)
             case None => NoLocals(ENOENT)
             case Some(f) => BindFrom(args[1..], f)
    }

    /** What push_locals returns. */
    function Bind(args: seq<LocalArg>): int {
      match BindFrom(args, map[])
      case Locals(_) => 0
      case NoLocals(err) => err
    }
  }

  /** A run of the actions of a target and the status it ended with. */
  datatype Run = Run(target: nat, status: int)

  /** dres_t, with the fact store, its snapshots, and a record of what happened. */
  datatype Dres = Dres(
    targets: seq<Stamps>, factvars: seq<Stamps>, dresvars: seq<Stamps>,
    stamp: int, txid: int, active: bool,
    facts: World, saved: seq<World>, pending: seq<nat>,
    script: seq<Act>, ran: seq<Run>, pushes: nat, pops: nat)
  {
    predicate Fits(sys: System) {
      |targets| == |sys.rules.targets| && |factvars| == sys.rules.nfactvar && |dresvars| == sys.rules.ndresvar
    }

    function StampOf(id: Id): int {
      match id.kind
      case Target => if id.index < |targets| then targets[id.index].stamp else 0
      case FactVar => if id.index < |factvars| then factvars[id.index].stamp else 0
      case DresVar => if id.index < |dresvars| then dresvars[id.index].stamp else 0
    }
  }

  // ------------------------------------------------------------------
  // Stamps and transactions
  // ------------------------------------------------------------------

  /** dres_update_target_stamp. */
  function TouchTarget(s: Dres, t: nat): Dres
    requires t < |s.targets|
  {
    s.(targets := s.targets[t := s.targets[t].Touch(s.txid, s.stamp)])
  }

  function TouchVars(vars: seq<Stamps>, changes: seq<nat>, txid: int, now: int): (r: seq<Stamps>)
    ensures |r| == |vars|
  {
    if changes == [] then vars
    else
      var rest, idx := TouchVars(vars, changes[..|changes| - 1], txid, now), changes[|changes| - 1];
      if idx < |rest| then rest[idx := rest[idx].Touch(txid, now)] else rest
  }

  /** dres_store_check: restamps the fact variables that have changed. */
  function StoreCheck(s: Dres): Dres {
    s.(factvars := TouchVars(s.factvars, s.pending, s.txid, s.stamp), pending := [])
  }

  /** dres_store_tx_new, and the transaction's own number. */
  function Begin(s: Dres): Dres {
    s.(saved := s.saved + [s.facts], active := true, txid := s.txid + 1, pushes := s.pushes + 1)
  }

  function Commit(s: Dres): Dres
    requires s.saved != []
  {
    s.(saved := s.saved[..|s.saved| - 1], active := false, pops := s.pops + 1)
  }

  function RestoreAll(v: seq<Stamps>, txid: int): (r: seq<Stamps>)
    ensures |r| == |v| && forall i | 0 <= i < |v| :: r[i] == v[i].Restore(txid)
  {
    seq(|v|, i requires 0 <= i < |v| => v[i].Restore(txid))
  }

  /** dres_store_tx_rollback: fact variables keep their stamps. */
  function Rollback(s: Dres): Dres
    requires s.saved != []
  {
    s.(facts := s.saved[|s.saved| - 1], saved := s.saved[..|s.saved| - 1], active := false, pops := s.pops + 1,
       targets := RestoreAll(s.targets, s.txid), dresvars := RestoreAll(s.dresvars, s.txid))
  }

  /** What every part of an update keeps of the state it is given. */
  predicate SameShape(s: Dres, s1: Dres) {
    && |s1.targets| == |s.targets| && |s1.factvars| == |s.factvars| && |s1.dresvars| == |s.dresvars|
    && |s1.script| <= |s.script| && |s1.saved| == |s.saved| && s1.active == s.active
  }

  // ------------------------------------------------------------------
  // Updates
  // ------------------------------------------------------------------

  /** Whether dres_check_target finds a target in need of an update. */
  predicate Stale(sys: System, s: Dres, t: nat)
    requires s.Fits(sys) && t < |s.targets|
  {
    match sys.rules.targets[t].prereqs
    case None => true
    case Some(ids) => exists i | 0 <= i < |ids| :: s.StampOf(ids[i]) > s.targets[t].stamp
  }

  /** dres_run_actions. */
  function RunActions(sys: System, s: Dres, t: nat): (r: (Dres, int))
    requires sys.Sized() && s.Fits(sys) && t < |sys.rules.targets| && s.active && s.saved != []
    ensures SameShape(s, r.0)
    decreases |s.script|, 1
  {
    var (s1, status) := if sys.hasCode[t] then RunScript(sys, s) else (s, 1);
    (s1.(ran := s1.ran + [Run(t, status)]), status)
  }

  /** The code of a target, up to the status vm_exec returns.  A nested resolve
      that does not succeed raises or fails in the instruction that called it. */
  function RunScript(sys: System, s: Dres): (r: (Dres, int))
    requires sys.Sized() && s.Fits(sys) && s.active && s.saved != []
    ensures SameShape(s, r.0)
    decreases |s.script|, 0
  {
    if s.script == [] then (s, -EINVAL)
    else
      var s1 := s.(script := s.script[1..]);
      match s.script[0]
      case Write(facts, changed) => RunScript(sys, s1.(facts := facts, pending := s1.pending + changed))
      case Resolve(goal) =>
        var (s2, status) := UpdateGoal(sys, s1, goal, None);
        if status <= 0 then (s2, status) else RunScript(sys, s2)
      case Return(status) => (s1, status)
  }

  /** dres_check_target. */
  function Check(sys: System, s: Dres, t: nat): (r: (Dres, int))
    requires sys.Sized() && s.Fits(sys) && t < |sys.rules.targets| && s.active && s.saved != []
    ensures SameShape(s, r.0)
    decreases |s.script|, 2
  {
    if Stale(sys, s, t) then
      var (s1, status) := RunActions(sys, s, t);
      (if status > 0 then TouchTarget(s1, t) else s1, status)
    else (s, 1)
  }

  /** The loop over the sorted dependencies of a goal, from entry `i` on. */
  function CheckAll(sys: System, s: Dres, goal: nat, i: nat, status: int): (r: (Dres, int))
    requires sys.Sized() && s.Fits(sys) && goal < |sys.rules.targets| && s.active && s.saved != []
    ensures SameShape(s, r.0)
    decreases |s.script|, 3, |sys.deps[goal]| - i
  {
    if i >= |sys.deps[goal]| || sys.deps[goal][i].None? then (s, status)
    else if sys.deps[goal][i].value.kind != Target then CheckAll(sys, s, goal, i + 1, status)
    else
      var (s1, st) := Check(sys, s, sys.deps[goal][i].value.index);
      if st <= 0 then (s1, st) else CheckAll(sys, s1, goal, i + 1, st)
  }

  /** The part of dres_update_goal between opening and closing a transaction. */
  function Body(sys: System, s: Dres, t: nat): (r: (Dres, int))
    requires sys.Sized() && s.Fits(sys) && t < |sys.rules.targets| && s.active && s.saved != []
    ensures SameShape(s, r.0)
    decreases |s.script|, 4
  {
    var (s1, status) :=
      if sys.rules.targets[t].prereqs.None? then RunActions(sys, s, t) else CheckAll(sys, s, t, 0, 0);
    (if status > 0 then TouchTarget(s1, t) else s1, status)
  }

  /** The state in which the targets are looked at: within a transaction, with a
      stamp of its own, and with the reported changes taken in. */
  function Opened(s: Dres): (s1: Dres)
    ensures s1.active && |s1.script| == |s.script|
  {
    var s1 := if s.active then s else Begin(s);
    StoreCheck(s1.(stamp := s1.stamp + 1))
  }

  /** dres_update_goal. */
  function UpdateGoal(sys: System, s: Dres, goal: Option<string>, args: Option<seq<LocalArg>>): (r: (Dres, int))
    requires sys.Sized() && s.Fits(sys) && (s.active ==> s.saved != [])
    ensures SameShape(s, r.0)
    decreases |s.script|, 5
  {
    match sys.Goal(goal)
    case None => (s, -EINVAL)
    case Some(t) =>
      var s1 := Opened(s);
      var err := if args.Some? then sys.Bind(args.value) else 0;
      if err != 0 then (if s.active then s1 else Rollback(s1), err)
      else
        var (s2, status) := Body(sys, s1, t);
        if s.active then (s2, status)
        else (if status > 0 then Commit(s2) else Rollback(s2), status)
  }
}
