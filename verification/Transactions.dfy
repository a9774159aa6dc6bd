/** What updates keep, however deeply goals are resolved from within actions:
    one transaction around everything, all or nothing, exact rollback. */
module Transactions {
  import opened Words
  import opened Facts
  import opened Ids
  import opened Graph
  import opened Sort
  import opened Protocol
  import Machine

  /** The facts after the writes of a part of a script. */
  function Applied(facts: World, acts: seq<Act>): World {
    if acts == [] then facts
    else
      match acts[|acts| - 1]
      case Write(w, _) => w
      case _ => Applied(facts, acts[..|acts| - 1])
  }

  lemma {:induction false} AppliedTwice(facts: World, a: seq<Act>, b: seq<Act>)
    ensures Applied(facts, a + b) == Applied(Applied(facts, a), b)
  {
    if b == [] {
      assert a + b == a;
    } else {
      assert (a + b)[..|a + b| - 1] == a + b[..|b| - 1];
      AppliedTwice(facts, a, b[..|b| - 1]);
    }
  }

  predicate AllGood(ran: seq<Run>) {
    forall i | 0 <= i < |ran| :: ran[i].status > 0
  }

  lemma GoodTogether(a: seq<Run>, b: seq<Run>)
    ensures AllGood(a + b) <==> AllGood(a) && AllGood(b)
  {
    if AllGood(a + b) {
      forall i | 0 <= i < |a| ensures a[i].status > 0 {
        assert (a + b)[i] == a[i];
      }
      forall i | 0 <= i < |b| ensures b[i].status > 0 {
        assert (a + b)[|a| + i] == b[i];
      }
    }
  }

  /** The actions run since. */
  function Since(s: Dres, s1: Dres): seq<Run>
    requires |s.ran| <= |s1.ran|
  {
    s1.ran[|s.ran|..]
  }

  ghost predicate SameBases(v: seq<Stamps>, v1: seq<Stamps>, txid: int) {
    |v1| == |v| && forall i | 0 <= i < |v| :: v1[i].Base(txid) == v[i].Base(txid)
  }

  /** Stamps are left alone or set to one of the stamps from `lo` to `hi`. */
  ghost predicate Restamped(v: seq<Stamps>, v1: seq<Stamps>, lo: int, hi: int, txid: int) {
    |v1| == |v| && forall i | 0 <= i < |v| :: v1[i] == v[i] || (lo <= v1[i].stamp <= hi && v1[i].txid == txid)
  }

  /** The script has been followed for some way, and the facts with it. */
  ghost predicate Followed(s: Dres, s1: Dres) {
    && |s1.script| <= |s.script|
    && s1.script == s.script[|s.script| - |s1.script|..]
    && s1.facts == Applied(s.facts, s.script[..|s.script| - |s1.script|])
  }

  /** What every part of an update keeps while its transaction is open. */
  ghost predicate Within(s: Dres, s1: Dres) {
    && SameShape(s, s1)
    && s1.saved == s.saved && s1.txid == s.txid
    && s1.pushes == s.pushes && s1.pops == s.pops
    && s1.dresvars == s.dresvars && s.stamp <= s1.stamp && s.ran <= s1.ran
    && SameBases(s.targets, s1.targets, s.txid)
    && Restamped(s.targets, s1.targets, s.stamp, s1.stamp, s.txid)
    && Restamped(s.factvars, s1.factvars, s.stamp, s1.stamp, s.txid)
    && Followed(s, s1)
  }

  lemma WithinSelf(s: Dres)
    ensures Within(s, s)
  {
  }

  lemma FollowedOn(s: Dres, s1: Dres, s2: Dres)
    requires Followed(s, s1) && Followed(s1, s2)
    ensures Followed(s, s2)
  {
    var a, b := s.script[..|s.script| - |s1.script|], s1.script[..|s1.script| - |s2.script|];
    assert a + b == s.script[..|s.script| - |s2.script|];
    AppliedTwice(s.facts, a, b);
  }

  lemma WithinOn(s: Dres, s1: Dres, s2: Dres)
    requires Within(s, s1) && Within(s1, s2)
    ensures Within(s, s2)
    ensures Since(s, s2) == Since(s, s1) + Since(s1, s2)
    ensures AllGood(Since(s, s2)) <==> AllGood(Since(s, s1)) && AllGood(Since(s1, s2))
  {
    GoodTogether(Since(s, s1), Since(s1, s2));
    hide Followed;
    FollowedOn(s, s1, s2);
    assert s2.ran == s.ran + (Since(s, s1) + Since(s1, s2));
  }

  lemma WithinTouch(s: Dres, t: nat)
    requires t < |s.targets|
    ensures Within(s, TouchTarget(s, t))
  {
    WithinSelf(s);
  }

  lemma {:induction false} TouchVarsRestamp(v: seq<Stamps>, changes: seq<nat>, txid: int, now: int)
    ensures Restamped(v, TouchVars(v, changes, txid, now), now, now, txid)
  {
    if changes != [] {
      TouchVarsRestamp(v, changes[..|changes| - 1], txid, now);
    }
  }

  /** A nested update takes in the reported changes under a new stamp. */
  lemma WithinOpened(s: Dres)
    requires s.active
    ensures Within(s, Opened(s)) && Since(s, Opened(s)) == []
  {
    TouchVarsRestamp(s.factvars, s.pending, s.txid, s.stamp + 1);
    WithinSelf(s);
  }

  /** The targets in a list of dependencies, from entry `i` on. */
  function TargetsFrom(list: seq<Option<Id>>, i: nat): seq<nat>
    decreases |list| - i
  {
    if i >= |list| || list[i].None? then []
    else if list[i].value.kind != Target then TargetsFrom(list, i + 1)
    else [list[i].value.index] + TargetsFrom(list, i + 1)
  }

  /** A goal with prerequisites depends on itself at least. */
  predicate Listed(sys: System)
    requires sys.Sized()
  {
    forall t | 0 <= t < |sys.deps| && sys.rules.targets[t].prereqs.Some? :: TargetsFrom(sys.deps[t], 0) != []
  }

  // ------------------------------------------------------------------
  // The invariant of an open transaction
  // ------------------------------------------------------------------

  lemma RunScriptWithin(sys: System, s: Dres)
    requires sys.Sized() && Listed(sys) && s.Fits(sys) && s.active && s.saved != []
    ensures var (s1, status) := RunScript(sys, s);
            Within(s, s1) && (status > 0 ==> AllGood(Since(s, s1)))
    decreases |s.script|, 0
  {
    hide UpdateGoal, Within;
    WithinSelf(s);
    if s.script != [] {
      var s1 := s.(script := s.script[1..]);
      ScriptStep(s);
      match s.script[0]
      case Write(facts, changed) =>
        var s2 := s1.(facts := facts, pending := s1.pending + changed);
        RunScriptWithin(sys, s2);
        WithinOn(s, s2, RunScript(sys, s2).0);
      case Resolve(goal) =>
        UpdateWithin(sys, s1, goal);
        var (s2, status) := UpdateGoal(sys, s1, goal, None);
        WithinOn(s, s1, s2);
        if status > 0 {
          RunScriptWithin(sys, s2);
          WithinOn(s, s2, RunScript(sys, s2).0);
        }
      case Return(status) =>
    }
  }

  /** One act of a script. */
  lemma ScriptStep(s: Dres)
    requires s.script != []
    ensures var s1 := s.(script := s.script[1..]);
            match s.script[0]
            case Write(facts, changed) =>
              var s2 := s1.(facts := facts, pending := s1.pending + changed);
              Within(s, s2) && Since(s, s2) == []
            case _ => Within(s, s1) && Since(s, s1) == []
  {
    assert s.script[..1][..0] == [];
    WithinSelf(s);
  }

  lemma RunActionsWithin(sys: System, s: Dres, t: nat)
    requires sys.Sized() && Listed(sys) && s.Fits(sys) && t < |sys.rules.targets| && s.active && s.saved != []
    ensures var (s1, status) := RunActions(sys, s, t);
            Within(s, s1) && (status > 0 <==> AllGood(Since(s, s1)))
    decreases |s.script|, 1
  {
    hide RunScript;
    var s0, status := s, 1;
    WithinSelf(s);
    if sys.hasCode[t] {
      RunScriptWithin(sys, s);
      s0, status := RunScript(sys, s).0, RunScript(sys, s).1;
    }
    var s1 := s0.(ran := s0.ran + [Run(t, status)]);
    WithinSelf(s0);
    WithinOn(s, s0, s1);
    assert Since(s0, s1) == [Run(t, status)];
    assert [Run(t, status)][0].status == status;
  }

  lemma CheckWithin(sys: System, s: Dres, t: nat)
    requires sys.Sized() && Listed(sys) && s.Fits(sys) && t < |sys.rules.targets| && s.active && s.saved != []
    ensures var (s1, status) := Check(sys, s, t);
            Within(s, s1) && (status > 0 <==> AllGood(Since(s, s1)))
    decreases |s.script|, 2
  {
    hide RunActions, Within;
    WithinSelf(s);
    if Stale(sys, s, t) {
      RunActionsWithin(sys, s, t);
      var s1 := RunActions(sys, s, t).0;
      WithinTouch(s1, t);
      WithinOn(s, s1, TouchTarget(s1, t));
    }
  }

  lemma CheckAllWithin(sys: System, s: Dres, goal: nat, i: nat, status: int)
    requires sys.Sized() && Listed(sys) && s.Fits(sys) && goal < |sys.rules.targets| && s.active && s.saved != []
    ensures var (s1, st) := CheckAll(sys, s, goal, i, status);
            && Within(s, s1)
            && (TargetsFrom(sys.deps[goal], i) != [] || status > 0 ==> (st > 0 <==> AllGood(Since(s, s1))))
    decreases |s.script|, 3, |sys.deps[goal]| - i
  {
    hide Check, Within;
    WithinSelf(s);
    if i < |sys.deps[goal]| && sys.deps[goal][i].Some? {
      if sys.deps[goal][i].value.kind != Target {
        CheckAllWithin(sys, s, goal, i + 1, status);
      } else {
        var t := sys.deps[goal][i].value.index;
        CheckWithin(sys, s, t);
        var (s1, st) := Check(sys, s, t);
        if st > 0 {
          CheckAllWithin(sys, s1, goal, i + 1, st);
          WithinOn(s, s1, CheckAll(sys, s1, goal, i + 1, st).0);
        }
      }
    }
  }

  lemma BodyWithin(sys: System, s: Dres, t: nat)
    requires sys.Sized() && Listed(sys) && s.Fits(sys) && t < |sys.rules.targets| && s.active && s.saved != []
    ensures var (s1, status) := Body(sys, s, t);
            Within(s, s1) && (status > 0 <==> AllGood(Since(s, s1)))
    decreases |s.script|, 4
  {
    hide RunActions, CheckAll, Within;
    var s1;
    if sys.rules.targets[t].prereqs.None? {
      RunActionsWithin(sys, s, t);
      s1 := RunActions(sys, s, t).0;
    } else {
      CheckAllWithin(sys, s, t, 0, 0);
      s1 := CheckAll(sys, s, t, 0, 0).0;
    }
    WithinTouch(s1, t);
    WithinOn(s, s1, TouchTarget(s1, t));
  }

  lemma UpdateWithin(sys: System, s: Dres, goal: Option<string>)
    requires sys.Sized() && Listed(sys) && s.Fits(sys) && s.active && s.saved != []
    ensures var (s1, status) := UpdateGoal(sys, s, goal, None);
            Within(s, s1) && (status > 0 ==> AllGood(Since(s, s1)))
    decreases |s.script|, 5
  {
    hide Body, Within;
    WithinSelf(s);
    match sys.Goal(goal)
    case None =>
    case Some(t) =>
      WithinOpened(s);
      BodyWithin(sys, Opened(s), t);
      WithinOn(s, Opened(s), Body(sys, Opened(s), t).0);
  }

  // ------------------------------------------------------------------
  // Updates from outside
  // ------------------------------------------------------------------

  ghost predicate Below(v: seq<Stamps>, stamp: int, txid: int) {
    forall i | 0 <= i < |v| :: v[i].stamp <= stamp && v[i].txid <= txid
  }

  /** What holds between updates: no transaction is open, and no stamp and no
      transaction number is ahead of the global ones. */
  ghost predicate Settled(s: Dres) {
    && !s.active
    && Below(s.targets, s.stamp, s.txid) && Below(s.factvars, s.stamp, s.txid) && Below(s.dresvars, s.stamp, s.txid)
  }

  ghost predicate SameStamps(v: seq<Stamps>, v1: seq<Stamps>) {
    |v1| == |v| && forall i | 0 <= i < |v| :: v1[i].stamp == v[i].stamp
  }

  /** Rolling a transaction back restores every stamp it has changed, however often. */
  lemma RestoreBases(v: seq<Stamps>, v1: seq<Stamps>, stamp: int, txid: int)
    requires SameBases(v, v1, txid + 1) && Below(v, stamp, txid)
    ensures SameStamps(v, RestoreAll(v1, txid + 1))
  {
    forall i | 0 <= i < |v| ensures RestoreAll(v1, txid + 1)[i].stamp == v[i].stamp {
      assert v1[i].Base(txid + 1) == v[i].Base(txid + 1);
    }
  }

  lemma {:induction false} Reported(v: seq<Stamps>, changes: seq<nat>, txid: int, now: int)
    ensures forall k | k in changes && k < |v| :: TouchVars(v, changes, txid, now)[k].stamp == now
  {
    if changes != [] {
      Reported(v, changes[..|changes| - 1], txid, now);
    }
  }

  /** The state a transaction of its own begins with. */
  lemma OpenedAnew(s: Dres)
    requires !s.active
    ensures Within(Begin(s), Opened(s)) && Opened(s).ran == s.ran && Opened(s).saved == s.saved + [s.facts]
    ensures Opened(s).stamp == s.stamp + 1 && Opened(s).targets == s.targets && Opened(s).dresvars == s.dresvars
    ensures forall k | k in s.pending && k < |s.factvars| :: Opened(s).factvars[k].stamp == s.stamp + 1
  {
    WithinOpened(Begin(s));
    assert Opened(Begin(s)) == Opened(s);
    Reported(s.factvars, s.pending, s.txid + 1, s.stamp + 1);
  }

  /** The facts, targets and variables are as they were, but for the fact variables
      that were reported to have changed. */
  ghost predicate Undone(s: Dres, s1: Dres) {
    s1.facts == s.facts && SameStamps(s.targets, s1.targets) && SameStamps(s.dresvars, s1.dresvars)
  }

  function BindError(sys: System, args: Option<seq<LocalArg>>): int {
    if args.Some? then sys.Bind(args.value) else 0
  }

  lemma BindErrors(sys: System, args: seq<LocalArg>)
    ensures sys.Bind(args) == 0 || sys.Bind(args) == EINVAL || sys.Bind(args) == ENOENT
  {
    BindFromErrors(sys, args, map[]);
  }

  lemma {:induction false} BindFromErrors(sys: System, args: seq<LocalArg>, frame: Machine.Frame)
    ensures var r := sys.BindFrom(args, frame); r.NoLocals? ==> r.err == EINVAL || r.err == ENOENT
    decreases |args|
  {
    if args != [] && args[0].Value().Some? && sys.LocalIndex(args[0].name, 0).Some? {
      var f := Machine.ScopeSet(|sys.locals|, frame, sys.LocalIndex(args[0].name, 0).value, args[0].Value().value);
      if f.Some? {
        BindFromErrors(sys, args[1..], f.value);
      }
    }
  }

  /** What an argument gives a variable, by its tag; `None` for a tag there is not. */
  predicate Gives(a: LocalArg, v: Value) {
    || ((a.tag == None || a.tag == Some('s')) && v == Str(a.word.s))
    || (a.tag == Some('i') && v == Int(a.word.i))
    || (a.tag == Some('d') && v == Dbl(a.word.d))
  }

  predicate KnownTag(a: LocalArg) {
    a.tag == None || a.tag == Some('s') || a.tag == Some('i') || a.tag == Some('d')
  }

  /** An argument is for variable `idx`: the first one of its name. */
  predicate Sets(sys: System, a: LocalArg, idx: nat)
    requires idx < |sys.locals|
  {
    sys.locals[idx] == a.name && a.name !in sys.locals[..idx]
  }

  /** Argument `i` is the last one for variable `idx`. */
  predicate LastFor(sys: System, args: seq<LocalArg>, idx: nat, i: nat)
    requires idx < |sys.locals|
  {
    i < |args| && Sets(sys, args[i], idx) && forall j | i < j < |args| :: !Sets(sys, args[j], idx)
  }

  lemma SetsIs(sys: System, a: LocalArg, idx: nat)
    requires idx < |sys.locals|
    ensures Sets(sys, a, idx) <==> sys.LocalIndex(a.name, 0) == Some(idx)
    ensures sys.LocalIndex(a.name, 0).Some? <==> a.name in sys.locals
    ensures forall v :: Gives(a, v) <==> a.Value() == Some(v)
    ensures KnownTag(a) <==> a.Value().Some?
  {
    var first := sys.LocalIndex(a.name, 0);
    if first.Some? && idx < first.value {
      assert sys.locals[0..first.value][idx] == sys.locals[idx];
    }
    if first.Some? && first.value < idx {
      assert sys.locals[..idx][first.value] == sys.locals[first.value];
    }
    if first == Some(idx) {
      assert sys.locals[0..idx] == sys.locals[..idx];
    }
  }

  /** The locals can be bound exactly if every argument has a known tag and names a
      variable.  A variable then reads as what the last argument for it gives, according
      to its tag, and as before if there is none. */
  lemma {:induction false} BindReads(sys: System, args: seq<LocalArg>, frame: Machine.Frame, outer: seq<Machine.Frame>,
                                     idx: nat)
    requires idx < |sys.locals|
    ensures var r := sys.BindFrom(args, frame);
            && (r.Locals? <==> forall i | 0 <= i < |args| :: KnownTag(args[i]) && args[i].name in sys.locals)
            && (r.Locals? ==>
                  var v := Machine.ScopeGet(|sys.locals|, outer + [r.frame], idx);
                  && (forall i: nat | LastFor(sys, args, idx, i) :: Gives(args[i], v))
                  && ((forall i | 0 <= i < |args| :: !Sets(sys, args[i], idx)) ==>
                        v == Machine.ScopeGet(|sys.locals|, outer + [frame], idx)))
    decreases |args|
  {
    hide Gives, KnownTag, Sets, Machine.ScopeGet;
    if args != [] {
      var a, rest := args[0], args[1..];
      SetsIs(sys, a, idx);
      if KnownTag(a) && a.name in sys.locals {
        var k, v := sys.LocalIndex(a.name, 0).value, a.Value().value;
        BindReads(sys, rest, frame[k := v], outer, idx);
        SetReads(|sys.locals|, frame, k, v, outer, idx);
        LastLater(sys, args, idx);
      }
    }
  }

  lemma SetReads(nlocal: nat, frame: Machine.Frame, k: nat, v: Value, outer: seq<Machine.Frame>, idx: nat)
    requires idx < nlocal
    ensures Machine.ScopeGet(nlocal, outer + [frame[k := v]], idx)
         == if k == idx then v else Machine.ScopeGet(nlocal, outer + [frame], idx)
  {
    assert (outer + [frame[k := v]])[..|outer|] == outer && (outer + [frame])[..|outer|] == outer;
  }

  lemma LastLater(sys: System, args: seq<LocalArg>, idx: nat)
    requires idx < |sys.locals| && args != []
    ensures forall i: nat | i > 0 && LastFor(sys, args, idx, i) :: LastFor(sys, args[1..], idx, i - 1)
    ensures LastFor(sys, args, idx, 0) ==>
              Sets(sys, args[0], idx) && forall i | 0 <= i < |args[1..]| :: !Sets(sys, args[1..][i], idx)
  {
    hide Sets;
    var rest := args[1..];
    forall i: nat | i > 0 && LastFor(sys, args, idx, i) ensures LastFor(sys, rest, idx, i - 1) {
      assert rest[i - 1] == args[i];
    }
    assert forall i | 0 <= i < |rest| :: rest[i] == args[i + 1];
  }

  /** The first argument that cannot be bound decides the error: EINVAL for a tag there
      is not, whatever the name, and ENOENT for a name no variable has. */
  lemma {:induction false} BindRefuses(sys: System, args: seq<LocalArg>, frame: Machine.Frame, i: nat)
    requires i < |args| && !(KnownTag(args[i]) && args[i].name in sys.locals)
    requires forall j | 0 <= j < i :: KnownTag(args[j]) && args[j].name in sys.locals
    ensures sys.BindFrom(args, frame) == NoLocals(if KnownTag(args[i]) then ENOENT else EINVAL)
    decreases i
  {
    var a := args[0];
    assert KnownTag(a) <==> a.Value().Some?;
    assert a.name in sys.locals <==> sys.LocalIndex(a.name, 0).Some?;
    if i > 0 {
      BindRefuses(sys, args[1..], frame[sys.LocalIndex(a.name, 0).value := a.Value().value], i - 1);
    }
  }

  /** A goal names the first target of its name; without a name, the first of all. */
  predicate Names(sys: System, goal: Option<string>, t: nat)
    requires sys.Sized()
  {
    t < |sys.names| && if goal.Some? then sys.names[t] == goal.value && goal.value !in sys.names[..t] else t == 0
  }

  /** There is no such target, or it is mentioned but not defined. */
  predicate NoSuchGoal(sys: System, goal: Option<string>)
    requires sys.Sized()
  {
    || (goal.Some? && goal.value !in sys.names)
    || exists t | 0 <= t < |sys.names| :: Names(sys, goal, t) && sys.rules.targets[t].id.undefined
  }

  lemma NamesIs(sys: System, goal: Option<string>, t: nat)
    requires sys.Sized()
    ensures sys.Lookup(goal) == Some(t) <==> Names(sys, goal, t)
  {
    if goal.Some? && t < |sys.names| {
      var first := sys.Find(goal.value, 0);
      if first.Some? {
        assert sys.names[0..first.value] == sys.names[..first.value];
        if first.value < t {
          assert sys.names[..t][first.value] == goal.value;
        }
        if t < first.value {
          assert sys.names[..first.value][t] == sys.names[t];
        }
      }
    }
  }

  /** The goal of an update, if it names a target that is defined. */
  lemma GoalIs(sys: System, goal: Option<string>, t: nat)
    requires sys.Sized()
    ensures sys.Goal(goal) == Some(t) <==> Names(sys, goal, t) && !sys.rules.targets[t].id.undefined
  {
    hide Names;
    NamesIs(sys, goal, t);
  }

  lemma GoalNone(sys: System, goal: Option<string>)
    requires sys.Sized()
    ensures sys.Goal(goal).None? <==> NoSuchGoal(sys, goal)
  {
    hide Names;
    var t := sys.Lookup(goal);
    if t.Some? {
      NamesIs(sys, goal, t.value);
      assert sys.names[t.value] in sys.names;
    }
    forall u: nat | u < |sys.names| ensures Names(sys, goal, u) <==> t == Some(u) {
      NamesIs(sys, goal, u);
    }
  }

  /** All or nothing.  An update of a goal from outside opens one transaction and
      closes it, whatever its actions resolve on their way.  If the locals can be
      bound, the update succeeds exactly if every action run in the whole nest did,
      and then the facts are the ones the actions have written; otherwise the
      facts and the stamps of targets are what they were.  If they cannot, nothing
      is run and everything is undone, but the status is a positive error number.  A
      goal that no defined target has the name of is refused. */
  lemma AllOrNothing(sys: System, s: Dres, goal: Option<string>, args: Option<seq<LocalArg>>)
    requires sys.Sized() && Listed(sys) && s.Fits(sys) && Settled(s)
    ensures var (s1, status) := UpdateGoal(sys, s, goal, args);
            if NoSuchGoal(sys, goal) then s1 == s && status == -EINVAL
            else
              && s.ran <= s1.ran && !s1.active && s1.saved == s.saved
              && s1.pushes == s.pushes + 1 && s1.pops == s.pops + 1
              && (BindError(sys, args) == 0 ==>
                    && (status > 0 <==> AllGood(Since(s, s1)))
                    && (status > 0 ==> Followed(s, s1))
                    && (status <= 0 ==> Undone(s, s1)))
              && (BindError(sys, args) != 0 ==>
                    status == BindError(sys, args) > 0 && s1.ran == s.ran && Undone(s, s1))
  {
    hide Body, Opened, Followed, Restamped, RestoreAll, SameBases, SameStamps, Below, NoSuchGoal;
    GoalNone(sys, goal);
    if sys.Goal(goal).Some? {
      var t := sys.Goal(goal).value;
      var b, s1 := Begin(s), Opened(s);
      OpenedAnew(s);
      if args.Some? {
        BindErrors(sys, args.value);
      }
      if BindError(sys, args) != 0 {
        UndoneBy(s, s1);
      } else {
        BodyWithin(sys, s1, t);
        var (s2, status) := Body(sys, s1, t);
        WithinOn(b, s1, s2);
        assert Since(b, s1) == [] && Since(s, s2) == Since(b, s2);
        if status <= 0 {
          UndoneBy(s, s2);
        } else {
          FollowedOnly(b, s, s2, Commit(s2));
        }
      }
    }
  }

  lemma FollowedOnly(b: Dres, s: Dres, s2: Dres, c: Dres)
    requires Followed(b, s2) && b.script == s.script && b.facts == s.facts
    requires c.script == s2.script && c.facts == s2.facts
    ensures Followed(s, c)
  {
  }

  lemma UndoneBy(s: Dres, s1: Dres)
    requires Settled(s) && Within(Begin(s), s1)
    ensures s1.saved != [] && Undone(s, Rollback(s1)) && Rollback(s1).saved == s.saved
  {
    hide Followed, Restamped;
    RestoreBases(s.targets, s1.targets, s.stamp, s.txid);
    RestoreBases(s.dresvars, s1.dresvars, s.stamp, s.txid);
  }

  /** A change reported before an update is not lost: the variable has a stamp that
      is newer than every stamp before, even if the update is rolled back. */
  lemma ChangesKept(sys: System, s: Dres, goal: Option<string>, args: Option<seq<LocalArg>>, k: nat)
    requires sys.Sized() && Listed(sys) && s.Fits(sys) && Settled(s)
    requires sys.Goal(goal).Some? && k in s.pending && k < |s.factvars|
    ensures UpdateGoal(sys, s, goal, args).0.factvars[k].stamp > s.stamp
  {
    hide Body, Opened, Followed, RestoreAll, SameBases, Below;
    OpenedAnew(s);
    BodyWithin(sys, Opened(s), sys.Goal(goal).value);
    assert Opened(s).factvars[k].stamp > s.stamp;
  }

  lemma BelowAfter(v: seq<Stamps>, v1: seq<Stamps>, stamp: int, stamp1: int, txid: int)
    requires Below(v, stamp, txid) && Restamped(v, v1, stamp, stamp1, txid + 1) && stamp <= stamp1
    ensures Below(v1, stamp1, txid + 1)
  {
  }

  lemma BelowRestored(v: seq<Stamps>, v1: seq<Stamps>, stamp: int, stamp1: int, txid: int)
    requires Below(v, stamp, txid) && Below(v1, stamp1, txid + 1) && SameBases(v, v1, txid + 1) && stamp <= stamp1
    ensures Below(RestoreAll(v1, txid + 1), stamp1, txid + 1)
  {
    RestoreBases(v, v1, stamp, txid);
    forall i | 0 <= i < |v1| ensures RestoreAll(v1, txid + 1)[i].stamp <= stamp1 && v1[i].txid <= txid + 1 {
      assert RestoreAll(v1, txid + 1)[i].stamp == v[i].stamp;
    }
  }

  lemma SettledBy(s: Dres, s1: Dres)
    requires Settled(s) && Within(Begin(s), s1) && s1.saved != []
    ensures Settled(Commit(s1)) && Settled(Rollback(s1))
  {
    hide Followed, RestoreAll, SameBases, Below;
    BelowAfter(s.targets, s1.targets, s.stamp, s1.stamp, s.txid);
    BelowAfter(s.factvars, s1.factvars, s.stamp, s1.stamp, s.txid);
    BelowAfter(s.dresvars, s1.dresvars, s.stamp, s1.stamp, s.txid);
    BelowRestored(s.targets, s1.targets, s.stamp, s1.stamp, s.txid);
    BelowRestored(s.dresvars, s1.dresvars, s.stamp, s1.stamp, s.txid);
  }

  lemma SettledAfter(sys: System, s: Dres, goal: Option<string>, args: Option<seq<LocalArg>>)
    requires sys.Sized() && Listed(sys) && s.Fits(sys) && Settled(s)
    ensures var s1 := UpdateGoal(sys, s, goal, args).0;
            Settled(s1) && s1.Fits(sys) && s1.pops - s1.pushes == s.pops - s.pushes && s1.saved == s.saved
  {
    hide Body, Opened, Followed, Below, SameBases, Restamped, Settled, RestoreAll;
    if sys.Goal(goal).Some? {
      assert !s.active by {
        NotActive(s);
      }
      OpenedAnew(s);
      var s1 := Opened(s);
      BodyWithin(sys, s1, sys.Goal(goal).value);
      var s2 := Body(sys, s1, sys.Goal(goal).value).0;
      WithinOn(Begin(s), s1, s2);
      SettledBy(s, s1);
      SettledBy(s, s2);
      assert s2.saved == s.saved + [s.facts] == s1.saved;
      ClosesWell(s, s1);
      ClosesWell(s, s2);
      hide Within, Commit, Rollback;
    }
  }

  /** However a transaction is closed, the snapshot it was opened with is gone. */
  lemma ClosesWell(s: Dres, s1: Dres)
    requires Within(Begin(s), s1) && s1.saved == s.saved + [s.facts]
    ensures Commit(s1).saved == Rollback(s1).saved == s.saved && SameShape(Begin(s), s1)
    ensures Commit(s1).pops == Rollback(s1).pops == s.pops + 1
    ensures Commit(s1).pushes == Rollback(s1).pushes == s.pushes + 1
    ensures |Commit(s1).targets| == |Rollback(s1).targets| == |s.targets|
    ensures |Commit(s1).factvars| == |Rollback(s1).factvars| == |s.factvars|
    ensures |Commit(s1).dresvars| == |Rollback(s1).dresvars| == |s.dresvars|
  {
    hide Followed, SameBases, Restamped;
  }

  lemma NotActive(s: Dres)
    requires Settled(s)
    ensures !s.active
  {
  }

  /** What happens from one update to the next: others change the facts, changes
      are reported, and a goal is asked for. */
  datatype Call = Call(facts: World, changed: seq<nat>, script: seq<Act>, goal: Option<string>,
                       args: Option<seq<LocalArg>>)

  function Arrive(s: Dres, c: Call): Dres {
    s.(facts := c.facts, pending := s.pending + c.changed, script := c.script)
  }

  /** The state after a series of updates. */
  function After(sys: System, s: Dres, calls: seq<Call>): (r: Dres)
    requires sys.Sized() && s.Fits(sys) && !s.active
    ensures r.Fits(sys) && !r.active
  {
    if calls == [] then s
    else
      var n := |calls| - 1;
      UpdateGoal(sys, Arrive(After(sys, s, calls[..n]), calls[n]), calls[n].goal, calls[n].args).0
  }

  /** dres_init, which sets the global stamp to 1, or dres_load, which leaves it 0. */
  predicate Initial(s: Dres) {
    && 0 <= s.stamp && s.txid == 0 && !s.active && s.saved == [] && s.pushes == s.pops == 0
    && (forall i | 0 <= i < |s.targets| :: s.targets[i] == Stamps(0, 0, 0))
    && (forall i | 0 <= i < |s.factvars| :: s.factvars[i] == Stamps(0, 0, 0))
    && (forall i | 0 <= i < |s.dresvars| :: s.dresvars[i] == Stamps(0, 0, 0))
  }

  /** Between the updates of any run, no transaction is open, no snapshot is left
      behind, and no stamp is ahead of the global one; so the theorems about one
      update apply to every update of every run. */
  lemma {:induction false} AlwaysSettled(sys: System, s: Dres, calls: seq<Call>)
    requires sys.Sized() && Listed(sys) && s.Fits(sys) && Initial(s)
    ensures var r := After(sys, s, calls); Settled(r) && r.saved == [] && r.pushes == r.pops
  {
    hide UpdateGoal, Below;
    if calls == [] {
      FromInitial(s);
    } else {
      var n := |calls| - 1;
      AlwaysSettled(sys, s, calls[..n]);
      SettledAfter(sys, Arrive(After(sys, s, calls[..n]), calls[n]), calls[n].goal, calls[n].args);
    }
  }

  lemma FromInitial(s: Dres)
    requires Initial(s)
    ensures Settled(s)
  {
  }
}
