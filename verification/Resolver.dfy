/** The resolver as it works (src/dres.c, src/target.c, src/variables.c): stamps
    are updated in place, loops look through prerequisites and dependencies, and
    the transaction, the scope of the locals and the stamps are put right on
    every way out.  Each method is proved to do what `Protocol` says. */
module Resolver {
  import opened Words
  import opened Facts
  import opened Ids
  import opened Graph
  import opened Sort
  import opened Protocol
  import opened Transactions
  import opened Outdated
  import Machine

  /** dres_t. */
  class Resolver {
    const sys: System
    const targets: array<Stamps>
    const factvars: array<Stamps>
    const dresvars: array<Stamps>
    var stamp: int
    var txid: int
    var active: bool
    var facts: World
    var saved: seq<World>
    var pending: seq<nat>
    var scopes: seq<Machine.Frame>
    var script: seq<Act>
    var ran: seq<Run>
    var pushes: nat
    var pops: nat

    ghost function View(): Dres
      reads this, targets, factvars, dresvars
    {
      Dres(targets[..], factvars[..], dresvars[..], stamp, txid, active, facts, saved, pending, script, ran,
           pushes, pops)
    }

    ghost predicate Valid()
      reads this, targets, factvars, dresvars
    {
      && sys.Sized() && View().Fits(sys)
      && targets != factvars && targets != dresvars && factvars != dresvars
    }

    /** dres_init, for rules that have been finalized. */
    constructor (system: System, world: World)
      requires system.Sized()
      ensures Valid() && sys == system && Initial(View()) && facts == world
      ensures fresh(targets) && fresh(factvars) && fresh(dresvars)
    {
      sys := system;
      targets := new Stamps[|system.rules.targets|](i => Stamps(0, 0, 0));
      factvars := new Stamps[system.rules.nfactvar](i => Stamps(0, 0, 0));
      dresvars := new Stamps[system.rules.ndresvar](i => Stamps(0, 0, 0));
      stamp, txid, active, facts, saved, pending := 1, 0, false, world, [], [];
      scopes, script, ran, pushes, pops := [], [], [], 0, 0;
    }

    // ----------------------------------------------------------------
    // Stamps and transactions
    // ----------------------------------------------------------------

    /** dres_update_target_stamp and dres_update_var_stamp. */
    method TouchStamp(v: array<Stamps>, i: nat)
      requires i < v.Length
      modifies v
      ensures v[..] == old(v[..])[i := old(v[i]).Touch(txid, stamp)]
    {
      if v[i].txid != txid {
        v[i] := v[i].(txid := txid, txstamp := v[i].stamp);
      }
      v[i] := v[i].(stamp := stamp);
    }

    /** dres_store_check. */
    method CheckStore()
      requires Valid()
      modifies this`pending, factvars
      ensures Valid() && View() == StoreCheck(old(View()))
    {
      ghost var v0 := factvars[..];
      var changes := pending;
      for l := 0 to |changes|
        invariant factvars[..] == TouchVars(v0, changes[..l], txid, stamp)
        invariant pending == changes
      {
        assert changes[..l + 1][..l] == changes[..l];
        if changes[l] < factvars.Length {
          TouchStamp(factvars, changes[l]);
        }
      }
      assert changes[..|changes|] == changes;
      pending := [];
    }

    /** dres_store_tx_new. */
    method TxNew()
      requires Valid()
      modifies this`saved, this`active, this`txid, this`pushes
      ensures Valid() && View() == Begin(old(View()))
    {
      saved := saved + [facts];
      pushes := pushes + 1;
      active := true;
      txid := txid + 1;
    }

    /** dres_store_tx_commit. */
    method TxCommit()
      requires Valid() && saved != []
      modifies this`saved, this`active, this`pops
      ensures Valid() && View() == Commit(old(View()))
    {
      saved := saved[..|saved| - 1];
      pops := pops + 1;
      active := false;
    }

    /** One of the loops of a rollback. */
    method RestoreStamps(v: array<Stamps>)
      modifies v
      ensures v[..] == RestoreAll(old(v[..]), txid)
    {
      ghost var v0 := v[..];
      for i := 0 to v.Length
        invariant forall k | 0 <= k < v.Length :: v[k] == if k < i then v0[k].Restore(txid) else v0[k]
      {
        if v[i].txid == txid {
          v[i] := v[i].(stamp := v[i].txstamp);
        }
      }
    }

    /** dres_store_tx_rollback. */
    method TxRollback()
      requires Valid() && saved != []
      modifies this`facts, this`saved, this`active, this`pops, targets, dresvars
      ensures Valid() && View() == Rollback(old(View()))
    {
      facts := saved[|saved| - 1];
      saved := saved[..|saved| - 1];
      pops := pops + 1;
      active := false;
      RestoreStamps(targets);
      RestoreStamps(dresvars);
    }

    // ----------------------------------------------------------------
    // Locals
    // ----------------------------------------------------------------

    /** push_locals: a scope with the arguments, or none if one is refused. */
    method PushLocals(args: seq<LocalArg>) returns (err: int)
      modifies this`scopes
      ensures err == sys.Bind(args)
      ensures err == 0 ==>
                sys.BindFrom(args, map[]).Locals? && scopes == old(scopes) + [sys.BindFrom(args, map[]).frame]
      ensures err != 0 ==> scopes == old(scopes)
    {
      scopes := scopes + [map[]];
      var i, top := 0, |scopes| - 1;
      while i < |args|
        invariant 0 <= i <= |args| && |scopes| == top + 1 && scopes[..top] == old(scopes)
        invariant sys.BindFrom(args, map[]) == sys.BindFrom(args[i..], scopes[top])
      {
        assert args[i..][1..] == args[i + 1..];
        var v, idx := args[i].Value(), sys.LocalIndex(args[i].name, 0);
        if v.None? || idx.None? {
          scopes := scopes[..top];
          return if v.None? then EINVAL else ENOENT;
        }
        var f := Machine.ScopeSet(|sys.locals|, scopes[top], idx.value, v.value);
        if f.None? {
          scopes := scopes[..top];
          return ENOENT;
        }
        scopes := scopes[top := f.value];
        i := i + 1;
      }
      assert scopes == old(scopes) + [scopes[top]];
      return 0;
    }

    // ----------------------------------------------------------------
    // Updates
    // ----------------------------------------------------------------

    /** The loop of dres_check_target that decides whether a target needs an update. */
    method NeedsUpdate(t: nat) returns (update: bool)
      requires Valid() && t < targets.Length
      ensures update <==> Stale(sys, View(), t)
    {
      if sys.rules.targets[t].prereqs.None? {
        return true;
      }
      var ids := sys.rules.targets[t].prereqs.value;
      update := false;
      for i := 0 to |ids|
        invariant update <==> exists k | 0 <= k < i :: View().StampOf(ids[k]) > targets[t].stamp
      {
        var id := ids[i];
        match id.kind {
          case FactVar =>
            if (if id.index < factvars.Length then factvars[id.index].stamp else 0) > targets[t].stamp {
              update := true;
            }
          case DresVar =>
            if (if id.index < dresvars.Length then dresvars[id.index].stamp else 0) > targets[t].stamp {
              update := true;
            }
          case Target =>
            if (if id.index < targets.Length then targets[id.index].stamp else 0) > targets[t].stamp {
              update := true;
            }
        }
      }
    }

    /** dres_check_target. */
    method CheckTarget(t: nat) returns (status: int)
      requires Valid() && t < targets.Length && active && saved != []
      modifies this, targets, factvars, dresvars
      ensures Valid() && scopes == old(scopes) && (View(), status) == Check(sys, old(View()), t)
      decreases |script|, 2
    {
      var update := NeedsUpdate(t);
      if !update {
        return 1;
      }
      status := RunTarget(t);
      if status > 0 {
        TouchStamp(targets, t);
      }
    }

    /** dres_run_actions. */
    method RunTarget(t: nat) returns (status: int)
      requires Valid() && t < targets.Length && active && saved != []
      modifies this, targets, factvars, dresvars
      ensures Valid() && scopes == old(scopes) && (View(), status) == RunActions(sys, old(View()), t)
      decreases |script|, 1
    {
      status := 1;
      if sys.hasCode[t] {
        status := Play();
      }
      ran := ran + [Run(t, status)];
    }

    /** The code of a target, as far as the resolver can tell; a goal resolved on the
        way is resolved by the resolver itself. */
    method Play() returns (status: int)
      requires Valid() && active && saved != []
      modifies this, targets, factvars, dresvars
      ensures Valid() && scopes == old(scopes) && (View(), status) == RunScript(sys, old(View()))
      decreases |script|, 0
    {
      ghost var s0 := View();
      while script != []
        invariant Valid() && scopes == old(scopes) && active && saved != [] && |script| <= |s0.script|
        invariant RunScript(sys, View()) == RunScript(sys, s0)
        decreases |script|
      {
        var act := script[0];
        script := script[1..];
        match act {
          case Write(w, changed) =>
            facts, pending := w, pending + changed;
          case Resolve(goal) =>
            var st := Resolve(goal, None);
            if st <= 0 {
              return st;
            }
          case Return(st) =>
            return st;
        }
      }
      return -EINVAL;
    }

    /** The transaction, unless there is one already, the new stamp, and the reported
        changes. */
    method Open() returns (own: bool)
      requires Valid() && (active ==> saved != [])
      modifies this`saved, this`active, this`txid, this`pushes, this`stamp, this`pending, factvars
      ensures Valid() && View() == Opened(old(View())) && active && saved != []
      ensures own == !old(active)
    {
      own := !active;
      if own {
        TxNew();
      }
      stamp := stamp + 1;
      CheckStore();
    }

    /** The end of an update: the goal is restamped if it succeeded, and the transaction
        that was opened for it is closed. */
    method Close(t: nat, own: bool, status: int)
      requires Valid() && t < targets.Length && saved != []
      modifies this`facts, this`saved, this`active, this`pops, targets, dresvars
      ensures Valid()
      ensures View() == (var s := if status > 0 then TouchTarget(old(View()), t) else old(View());
                         if !own then s else if status > 0 then Commit(s) else Rollback(s))
    {
      if status > 0 {
        TouchStamp(targets, t);
        if own {
          TxCommit();
        }
      } else if own {
        TxRollback();
      }
    }

    /** dres_update_goal.  The scope of the locals is gone again on every way out. */
    method Resolve(goal: Option<string>, args: Option<seq<LocalArg>>) returns (status: int)
      requires Valid() && (active ==> saved != [])
      modifies this, targets, factvars, dresvars
      ensures Valid() && scopes == old(scopes) && (View(), status) == UpdateGoal(sys, old(View()), goal, args)
      decreases |script|, 5
    {
      hide CheckAll, RunActions, Opened, Commit, Rollback, TouchTarget, sys.Bind, sys.Goal;
      var found := sys.Goal(goal);
      if found.None? {
        return -EINVAL;
      }
      var t := found.value;
      var own := Open();
      if args.Some? {
        status := PushLocals(args.value);
        if status != 0 {
          if own {
            TxRollback();
          }
          return;
        }
      }
      status := RunGoal(t);
      if args.Some? {
        scopes := scopes[..|scopes| - 1];
      }
      Close(t, own, status);
    }

    /** The part of it that runs the goal, or checks its dependencies in order. */
    method RunGoal(t: nat) returns (status: int)
      requires Valid() && t < targets.Length && active && saved != []
      modifies this, targets, factvars, dresvars
      ensures Valid() && scopes == old(scopes)
      ensures (View(), status) == if sys.rules.targets[t].prereqs.None? then RunActions(sys, old(View()), t)
                                  else CheckAll(sys, old(View()), t, 0, 0)
      decreases |script|, 4
    {
      ghost var s0 := View();
      if sys.rules.targets[t].prereqs.None? {
        status := RunTarget(t);
        return;
      }
      status := 0;
      var i := 0;
      while i < |sys.deps[t]| && sys.deps[t][i].Some?
        invariant Valid() && scopes == old(scopes) && active && saved != [] && |script| <= |s0.script|
        invariant 0 <= i <= |sys.deps[t]|
        invariant CheckAll(sys, View(), t, i, status) == CheckAll(sys, s0, t, 0, 0)
      {
        var id := sys.deps[t][i].value;
        if id.kind == Target {
          status := CheckTarget(id.index);
          if status <= 0 {
            break;
          }
        }
        i := i + 1;
      }
    }
  }
}
