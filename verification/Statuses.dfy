/** Where the statuses come from that targets are recorded with (src/action.c:139-153,
    src/dres.c:541-579): a target without actions succeeds, and one with actions ends
    as they do, or as the goal they failed to resolve. */
module Statuses {
  import opened Words
  import opened Facts
  import opened Ids
  import opened Graph
  import opened Sort
  import opened Protocol
  import opened Transactions

  /** The statuses returned by the acts of a script, in order. */
  function Returns(acts: seq<Act>): seq<int> {
    if acts == [] then []
    else
      var rest, last := Returns(acts[..|acts| - 1]), acts[|acts| - 1];
      if last.Return? then rest + [last.status] else rest
  }

  predicate HasCode(sys: System, t: nat) {
    t < |sys.hasCode| && sys.hasCode[t]
  }

  /** The statuses of the targets with actions, in order. */
  function Coded(sys: System, ran: seq<Run>): seq<int> {
    if ran == [] then []
    else
      var rest, last := Coded(sys, ran[..|ran| - 1]), ran[|ran| - 1];
      if HasCode(sys, last.target) then rest + [last.status] else rest
  }

  /** Targets without actions succeed. */
  predicate UncodedSucceed(sys: System, ran: seq<Run>) {
    forall i | 0 <= i < |ran| && !HasCode(sys, ran[i].target) :: ran[i].status == 1
  }

  lemma {:induction false} ReturnsTogether(a: seq<Act>, b: seq<Act>)
    ensures Returns(a + b) == Returns(a) + Returns(b)
  {
    if b == [] {
      assert a + b == a;
    } else {
      ReturnsTogether(a, b[..|b| - 1]);
      assert (a + b)[..|a + b| - 1] == a + b[..|b| - 1];
    }
  }

  lemma {:induction false} CodedTogether(sys: System, a: seq<Run>, b: seq<Run>)
    ensures Coded(sys, a + b) == Coded(sys, a) + Coded(sys, b)
    ensures UncodedSucceed(sys, a + b) <==> UncodedSucceed(sys, a) && UncodedSucceed(sys, b)
  {
    assert forall i | 0 <= i < |a| :: (a + b)[i] == a[i];
    assert forall i | 0 <= i < |b| :: (a + b)[|a| + i] == b[i];
    if b == [] {
      assert a + b == a;
    } else {
      CodedTogether(sys, a, b[..|b| - 1]);
      assert (a + b)[..|a + b| - 1] == a + b[..|b| - 1];
    }
  }

  /** The part of the script that has been followed. */
  function Consumed(s: Dres, s1: Dres): seq<Act>
    requires |s1.script| <= |s.script|
  {
    s.script[..|s.script| - |s1.script|]
  }

  /** On success the statuses are the ones returned; on failure they begin with these, and
      the others, of targets that could not resolve a goal, are the final status. */
  predicate Told(returned: seq<int>, statuses: seq<int>, status: int) {
    if status > 0 then statuses == returned
    else returned <= statuses && forall i | |returned| <= i < |statuses| :: statuses[i] == status
  }

  /** The statuses recorded in a part of an update that ends with `status`. */
  ghost predicate Accounted(sys: System, s: Dres, s1: Dres, status: int) {
    && Within(s, s1) && UncodedSucceed(sys, Since(s, s1))
    && Told(Returns(Consumed(s, s1)), Coded(sys, Since(s, s1)), status)
  }

  /** The same within the code of a target, whose own status is not recorded yet. */
  ghost predicate Pending(sys: System, s: Dres, s1: Dres, status: int) {
    && Within(s, s1) && UncodedSucceed(sys, Since(s, s1))
    && Told(Returns(Consumed(s, s1)), Coded(sys, Since(s, s1)) + [status], status)
  }

  lemma AccountedNothing(sys: System, s: Dres, s1: Dres, status: int)
    requires Within(s, s1) && s1.ran == s.ran && s1.script == s.script
    ensures Accounted(sys, s, s1, status)
  {
    assert s.script[..0] == [] && s.ran[|s.ran|..] == [];
  }

  lemma Together(sys: System, s: Dres, s1: Dres, s2: Dres)
    requires Within(s, s1) && Within(s1, s2)
    ensures Within(s, s2)
    ensures Returns(Consumed(s, s2)) == Returns(Consumed(s, s1)) + Returns(Consumed(s1, s2))
    ensures Coded(sys, Since(s, s2)) == Coded(sys, Since(s, s1)) + Coded(sys, Since(s1, s2))
    ensures UncodedSucceed(sys, Since(s, s2))
       <==> UncodedSucceed(sys, Since(s, s1)) && UncodedSucceed(sys, Since(s1, s2))
  {
    hide UncodedSucceed, Returns, Coded;
    WithinOn(s, s1, s2);
    CodedTogether(sys, Since(s, s1), Since(s1, s2));
    ReturnsTogether(Consumed(s, s1), Consumed(s1, s2));
    assert Consumed(s, s2) == Consumed(s, s1) + Consumed(s1, s2);
  }

  lemma AccountedOn(sys: System, s: Dres, s1: Dres, s2: Dres, st: int, status: int)
    requires Accounted(sys, s, s1, st) && st > 0
    ensures Accounted(sys, s1, s2, status) ==> Accounted(sys, s, s2, status)
    ensures Pending(sys, s1, s2, status) ==> Pending(sys, s, s2, status)
  {
    hide Within, UncodedSucceed, Returns, Coded;
    if Accounted(sys, s1, s2, status) || Pending(sys, s1, s2, status) {
      Together(sys, s, s1, s2);
      WithinRan(s, s1);
      WithinRan(s1, s2);
      var done, returned, statuses := Returns(Consumed(s, s1)), Returns(Consumed(s1, s2)), Coded(sys, Since(s1, s2));
      if Accounted(sys, s1, s2, status) {
        ToldOn(done, returned, statuses, status);
      }
      if Pending(sys, s1, s2, status) {
        ToldOn(done, returned, statuses + [status], status);
        assert done + statuses + [status] == done + (statuses + [status]);
      }
    }
  }

  lemma ToldOn(a: seq<int>, returned: seq<int>, statuses: seq<int>, status: int)
    requires Told(returned, statuses, status)
    ensures Told(a + returned, a + statuses, status)
  {
  }

  // ------------------------------------------------------------------
  // Every part of an update
  // ------------------------------------------------------------------

  lemma ScriptTold(sys: System, s: Dres)
    requires sys.Sized() && Listed(sys) && s.Fits(sys) && s.active && s.saved != []
    ensures var (s1, status) := RunScript(sys, s); Pending(sys, s, s1, status)
    decreases |s.script|, 0
  {
    hide UpdateGoal, Within, Accounted, Pending;
    if s.script == [] {
      NothingReturned(sys, s);
    } else {
      var s1 := s.(script := s.script[1..]);
      ActTold(sys, s);
      match s.script[0]
      case Write(facts, changed) =>
        var s2 := s1.(facts := facts, pending := s1.pending + changed);
        ScriptTold(sys, s2);
        AccountedOn(sys, s, s2, RunScript(sys, s2).0, 1, RunScript(sys, s2).1);
      case Resolve(goal) =>
        UpdateTold(sys, s1, goal);
        var (s2, status) := UpdateGoal(sys, s1, goal, None);
        AccountedOn(sys, s, s1, s2, 1, status);
        if status > 0 {
          ScriptTold(sys, s2);
          AccountedOn(sys, s, s2, RunScript(sys, s2).0, status, RunScript(sys, s2).1);
        } else {
          NotResolved(sys, s, s2, status);
        }
      case Return(status) =>
    }
  }

  lemma NothingReturned(sys: System, s: Dres)
    ensures Pending(sys, s, s, -EINVAL)
  {
    WithinSelf(s);
    assert s.script[..0] == [] && s.ran[|s.ran|..] == [];
  }

  lemma ActTold(sys: System, s: Dres)
    requires s.script != []
    ensures var s1 := s.(script := s.script[1..]);
            match s.script[0]
            case Write(facts, changed) => Accounted(sys, s, s1.(facts := facts, pending := s1.pending + changed), 1)
            case Resolve(_) => Accounted(sys, s, s1, 1)
            case Return(status) => Pending(sys, s, s1, status)
  {
    hide Within;
    ScriptStep(s);
    var act := s.script[..1];
    assert act[..0] == [] && act == [s.script[0]];
    assert Consumed(s, s.(script := s.script[1..])) == act;
    assert Returns([]) == [] && Coded(sys, []) == [];
    if s.script[0].Return? {
      assert Coded(sys, []) + [s.script[0].status] == Returns(act);
    }
  }

  lemma NotResolved(sys: System, s: Dres, s1: Dres, status: int)
    requires Accounted(sys, s, s1, status) && status <= 0
    ensures Pending(sys, s, s1, status)
  {
    hide Within, UncodedSucceed, Returns, Coded;
  }

  lemma ActionsTold(sys: System, s: Dres, t: nat)
    requires sys.Sized() && Listed(sys) && s.Fits(sys) && t < |sys.rules.targets| && s.active && s.saved != []
    ensures var (s1, status) := RunActions(sys, s, t);
            Accounted(sys, s, s1, status) && EndsWith(s, s1, status)
    decreases |s.script|, 1
  {
    hide RunScript, Within;
    RunActionsWithin(sys, s, t);
    var s0 := s;
    var (s1, status) := RunActions(sys, s, t);
    WithinSelf(s);
    if sys.hasCode[t] {
      ScriptTold(sys, s);
      s0 := RunScript(sys, s).0;
    }
    assert s0.ran[|s0.ran|..] == [] && s.script[..0] == [];
    WithinRan(s, s0);
    assert Since(s, s1) == Since(s, s0) + [Run(t, status)];
    CodedTogether(sys, Since(s, s0), [Run(t, status)]);
    assert [Run(t, status)][..0] == [];
  }

  lemma WithinRan(s: Dres, s1: Dres)
    requires Within(s, s1)
    ensures s.ran <= s1.ran && |s1.script| <= |s.script|
  {
  }

  /** The status of what was run last. */
  predicate EndsWith(s: Dres, s1: Dres, status: int) {
    |s.ran| < |s1.ran| && s1.ran[|s1.ran| - 1].status == status
  }

  lemma CheckTold(sys: System, s: Dres, t: nat)
    requires sys.Sized() && Listed(sys) && s.Fits(sys) && t < |sys.rules.targets| && s.active && s.saved != []
    ensures var (s1, status) := Check(sys, s, t);
            Accounted(sys, s, s1, status) && (status <= 0 ==> EndsWith(s, s1, status))
    decreases |s.script|, 2
  {
    hide RunActions, Within, Accounted;
    WithinSelf(s);
    if Stale(sys, s, t) {
      ActionsTold(sys, s, t);
      TouchTold(sys, s, RunActions(sys, s, t).0, t, RunActions(sys, s, t).1);
    } else {
      AccountedNothing(sys, s, s, 1);
    }
  }

  lemma TouchTold(sys: System, s: Dres, s1: Dres, t: nat, status: int)
    requires t < |s.targets| == |s1.targets| && Accounted(sys, s, s1, status)
    ensures status > 0 ==> Accounted(sys, s, TouchTarget(s1, t), status)
  {
    hide Accounted;
    WithinTouch(s1, t);
    AccountedNothing(sys, s1, TouchTarget(s1, t), status);
    if status > 0 {
      AccountedOn(sys, s, s1, TouchTarget(s1, t), status, status);
    }
  }

  lemma CheckAllTold(sys: System, s: Dres, goal: nat, i: nat, status: int)
    requires sys.Sized() && Listed(sys) && s.Fits(sys) && goal < |sys.rules.targets| && s.active && s.saved != []
    ensures var (s1, st) := CheckAll(sys, s, goal, i, status);
            && Accounted(sys, s, s1, st)
            && ((TargetsFrom(sys.deps[goal], i) != [] || status > 0) && st <= 0 ==> EndsWith(s, s1, st))
    decreases |s.script|, 3, |sys.deps[goal]| - i
  {
    hide Check, Within, Accounted;
    WithinSelf(s);
    AccountedNothing(sys, s, s, status);
    if i < |sys.deps[goal]| && sys.deps[goal][i].Some? {
      if sys.deps[goal][i].value.kind != Target {
        CheckAllTold(sys, s, goal, i + 1, status);
      } else {
        var t := sys.deps[goal][i].value.index;
        CheckTold(sys, s, t);
        var (s1, st) := Check(sys, s, t);
        if st > 0 {
          CheckAllTold(sys, s1, goal, i + 1, st);
          var (s2, st2) := CheckAll(sys, s1, goal, i + 1, st);
          AccountedOn(sys, s, s1, s2, st, st2);
          AccountedRan(sys, s, s1, st);
        }
      }
    }
  }

  lemma AccountedRan(sys: System, s: Dres, s1: Dres, status: int)
    requires Accounted(sys, s, s1, status)
    ensures |s.ran| <= |s1.ran|
  {
  }

  lemma BodyTold(sys: System, s: Dres, t: nat)
    requires sys.Sized() && Listed(sys) && s.Fits(sys) && t < |sys.rules.targets| && s.active && s.saved != []
    ensures var (s1, status) := Body(sys, s, t);
            Accounted(sys, s, s1, status) && (status <= 0 ==> EndsWith(s, s1, status))
    decreases |s.script|, 4
  {
    hide RunActions, CheckAll, Within, Accounted;
    if sys.rules.targets[t].prereqs.None? {
      ActionsTold(sys, s, t);
      TouchTold(sys, s, RunActions(sys, s, t).0, t, RunActions(sys, s, t).1);
    } else {
      CheckAllTold(sys, s, t, 0, 0);
      TouchTold(sys, s, CheckAll(sys, s, t, 0, 0).0, t, CheckAll(sys, s, t, 0, 0).1);
    }
  }

  lemma UpdateTold(sys: System, s: Dres, goal: Option<string>)
    requires sys.Sized() && Listed(sys) && s.Fits(sys) && s.active && s.saved != []
    ensures var (s1, status) := UpdateGoal(sys, s, goal, None); Accounted(sys, s, s1, status)
    decreases |s.script|, 5
  {
    hide Body, Within, Accounted;
    match sys.Goal(goal)
    case None =>
      WithinSelf(s);
      AccountedNothing(sys, s, s, -EINVAL);
    case Some(t) =>
      var s0 := Opened(s);
      WithinOpened(s);
      AccountedNothing(sys, s, s0, 1);
      BodyTold(sys, s0, t);
      AccountedOn(sys, s, s0, Body(sys, s0, t).0, 1, Body(sys, s0, t).1);
  }

  // ------------------------------------------------------------------
  // A whole update
  // ------------------------------------------------------------------

  /** In every update from outside, however deeply its actions resolve goals: targets
      without actions succeed; the statuses of the others are the ones their actions
      return, in order, as long as every goal they ask for is resolved; and a failure is
      the failure of the last target run.  So an update whose targets with actions all
      succeed is a success. */
  lemma StatusesTold(sys: System, s: Dres, goal: Option<string>, args: Option<seq<LocalArg>>)
    requires sys.Sized() && Listed(sys) && s.Fits(sys) && Settled(s)
    requires !NoSuchGoal(sys, goal) && BindError(sys, args) == 0
    ensures var (s1, status) := UpdateGoal(sys, s, goal, args);
            && s.ran <= s1.ran && |s1.script| <= |s.script|
            && UncodedSucceed(sys, Since(s, s1))
            && Told(Returns(Consumed(s, s1)), Coded(sys, Since(s, s1)), status)
            && (status <= 0 ==> EndsWith(s, s1, status))
            && ((forall i | |s.ran| <= i < |s1.ran| && HasCode(sys, s1.ran[i].target) :: s1.ran[i].status > 0) ==>
                  status > 0)
  {
    hide Body, Within, NoSuchGoal, UncodedSucceed, Returns, Coded, Told, Settled;
    GoalNone(sys, goal);
    var t := sys.Goal(goal).value;
    AllOrNothing(sys, s, goal, args);
    NotActive(s);
    OpenedAnew(s);
    var s0 := Opened(s);
    BodyTold(sys, s0, t);
    var (s2, status) := Body(sys, s0, t);
    WithinRan(s0, s2);
    var s1 := UpdateGoal(sys, s, goal, args).0;
    assert s1.ran == s2.ran && s1.script == s2.script;
    OnlyCodedFail(sys, s, s1);
  }

  lemma OnlyCodedFail(sys: System, s: Dres, s1: Dres)
    requires s.ran <= s1.ran && UncodedSucceed(sys, Since(s, s1))
    ensures AllGood(Since(s, s1))
       <==> forall i | |s.ran| <= i < |s1.ran| && HasCode(sys, s1.ran[i].target) :: s1.ran[i].status > 0
  {
    assert forall i | |s.ran| <= i < |s1.ran| :: Since(s, s1)[i - |s.ran|] == s1.ran[i];
  }
}
