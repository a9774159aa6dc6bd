/** Changes of facts that actions report while targets are run (src/factvar.c,
    src/dres.c:541-579): none is lost and none is made up, whether or not the update
    succeeds. */
module Reports {
  import opened Words
  import opened Facts
  import opened Ids
  import opened Graph
  import opened Sort
  import opened Protocol
  import opened Transactions
  import Statuses

  /** The fact variables reported in a part of a script. */
  function Changes(acts: seq<Act>): seq<nat> {
    if acts == [] then []
    else
      var rest, last := Changes(acts[..|acts| - 1]), acts[|acts| - 1];
      if last.Write? then rest + last.changed else rest
  }

  lemma {:induction false} ChangesTogether(a: seq<Act>, b: seq<Act>)
    ensures Changes(a + b) == Changes(a) + Changes(b)
  {
    if b == [] {
      assert a + b == a;
    } else {
      ChangesTogether(a, b[..|b| - 1]);
      assert (a + b)[..|a + b| - 1] == a + b[..|b| - 1];
    }
  }

  /** A change that was waiting to be taken in, or was reported since. */
  predicate Told(s: Dres, s1: Dres, k: nat)
    requires |s1.script| <= |s.script|
  {
    k in s.pending || k in Changes(Statuses.Consumed(s, s1))
  }

  /** A change that has been told is still waiting, or the variable has got a new stamp;
      and nothing else waits or has got one. */
  predicate NotedAt(s: Dres, s1: Dres, k: nat)
    requires |s1.script| <= |s.script| && |s1.factvars| == |s.factvars|
  {
    && (k in s1.pending ==> Told(s, s1, k))
    && (k < |s.factvars| ==>
          && (s1.factvars[k] == s.factvars[k] || (Told(s, s1, k) && s1.factvars[k].stamp > s.stamp))
          && (Told(s, s1, k) ==> k in s1.pending || s1.factvars[k].stamp > s.stamp))
  }

  ghost predicate Noted(s: Dres, s1: Dres) {
    && |s1.script| <= |s.script| && |s1.factvars| == |s.factvars| && s.stamp <= s1.stamp
    && s1.script == s.script[|s.script| - |s1.script|..]
    && forall k: nat :: NotedAt(s, s1, k)
  }

  lemma NotedOn(s: Dres, s1: Dres, s2: Dres)
    requires Noted(s, s1) && Noted(s1, s2)
    ensures Noted(s, s2)
  {
    hide Changes;
    assert Statuses.Consumed(s, s2) == Statuses.Consumed(s, s1) + Statuses.Consumed(s1, s2);
    ChangesTogether(Statuses.Consumed(s, s1), Statuses.Consumed(s1, s2));
    forall k: nat ensures NotedAt(s, s2, k) {
      assert NotedAt(s, s1, k) && NotedAt(s1, s2, k);
      assert Told(s, s2, k) <==> Told(s, s1, k) || k in Changes(Statuses.Consumed(s1, s2));
    }
  }

  /** Nothing is read from the script, and nothing is reported. */
  lemma NotedNothing(s: Dres, s1: Dres)
    requires s1.script == s.script && s1.pending == s.pending && s1.factvars == s.factvars && s.stamp <= s1.stamp
    ensures Noted(s, s1)
  {
    assert Statuses.Consumed(s, s1) == [];
  }

  lemma NotedAct(s: Dres)
    requires s.script != []
    ensures var s1 := s.(script := s.script[1..]);
            if s.script[0].Write? then
              Noted(s, s1.(facts := s.script[0].facts, pending := s1.pending + s.script[0].changed))
            else Noted(s, s1)
  {
    var act := s.script[..1];
    assert act[..0] == [] && act == [s.script[0]] && Changes([]) == [];
    assert Statuses.Consumed(s, s.(script := s.script[1..])) == act;
    assert Changes(act) == if s.script[0].Write? then s.script[0].changed else [];
  }

  lemma {:induction false} TouchedNow(v: seq<Stamps>, changes: seq<nat>, txid: int, now: int)
    ensures forall k: nat | k < |v| ::
              var u := TouchVars(v, changes, txid, now)[k]; if k in changes then u.stamp == now else u == v[k]
  {
    if changes != [] {
      var init := changes[..|changes| - 1];
      TouchedNow(v, init, txid, now);
      assert forall k :: k in changes <==> k in init || k == changes[|changes| - 1];
    }
  }

  /** Taking the reported changes in. */
  lemma NotedOpened(s: Dres)
    ensures Noted(s, Opened(s))
  {
    var s1 := Opened(s);
    var id := if s.active then s.txid else s.txid + 1;
    assert s1.factvars == TouchVars(s.factvars, s.pending, id, s.stamp + 1);
    TouchedNow(s.factvars, s.pending, id, s.stamp + 1);
    hide TouchVars;
    assert Statuses.Consumed(s, s1) == [] && Changes([]) == [];
    forall k: nat ensures NotedAt(s, s1, k) {
      assert k < |s.factvars| ==>
          if k in s.pending then s1.factvars[k].stamp == s.stamp + 1 else s1.factvars[k] == s.factvars[k];
    }
  }

  // ------------------------------------------------------------------
  // Every part of an update
  // ------------------------------------------------------------------

  lemma ScriptNoted(sys: System, s: Dres)
    requires sys.Sized() && s.Fits(sys) && s.active && s.saved != []
    ensures Noted(s, RunScript(sys, s).0)
    decreases |s.script|, 0
  {
    hide UpdateGoal, Noted;
    if s.script == [] {
      NotedNothing(s, s);
    } else {
      var s1 := s.(script := s.script[1..]);
      NotedAct(s);
      match s.script[0]
      case Write(facts, changed) =>
        var s2 := s1.(facts := facts, pending := s1.pending + changed);
        ScriptNoted(sys, s2);
        NotedOn(s, s2, RunScript(sys, s2).0);
      case Resolve(goal) =>
        UpdateNoted(sys, s1, goal);
        var (s2, status) := UpdateGoal(sys, s1, goal, None);
        NotedOn(s, s1, s2);
        if status > 0 {
          ScriptNoted(sys, s2);
          NotedOn(s, s2, RunScript(sys, s2).0);
        }
      case Return(status) =>
    }
  }

  lemma ActionsNoted(sys: System, s: Dres, t: nat)
    requires sys.Sized() && s.Fits(sys) && t < |sys.rules.targets| && s.active && s.saved != []
    ensures Noted(s, RunActions(sys, s, t).0)
    decreases |s.script|, 1
  {
    hide RunScript, Noted;
    var s0 := s;
    if sys.hasCode[t] {
      ScriptNoted(sys, s);
      s0 := RunScript(sys, s).0;
    } else {
      NotedNothing(s, s);
    }
    NotedNothing(s0, RunActions(sys, s, t).0);
    NotedOn(s, s0, RunActions(sys, s, t).0);
  }

  lemma CheckNoted(sys: System, s: Dres, t: nat)
    requires sys.Sized() && s.Fits(sys) && t < |sys.rules.targets| && s.active && s.saved != []
    ensures Noted(s, Check(sys, s, t).0)
    decreases |s.script|, 2
  {
    hide RunActions, Noted;
    NotedNothing(s, s);
    if Stale(sys, s, t) {
      ActionsNoted(sys, s, t);
      var s1 := RunActions(sys, s, t).0;
      NotedNothing(s1, TouchTarget(s1, t));
      NotedOn(s, s1, TouchTarget(s1, t));
    }
  }

  lemma CheckAllNoted(sys: System, s: Dres, goal: nat, i: nat, status: int)
    requires sys.Sized() && s.Fits(sys) && goal < |sys.rules.targets| && s.active && s.saved != []
    ensures Noted(s, CheckAll(sys, s, goal, i, status).0)
    decreases |s.script|, 3, |sys.deps[goal]| - i
  {
    hide Check, Noted;
    NotedNothing(s, s);
    if i < |sys.deps[goal]| && sys.deps[goal][i].Some? {
      if sys.deps[goal][i].value.kind != Target {
        CheckAllNoted(sys, s, goal, i + 1, status);
      } else {
        var t := sys.deps[goal][i].value.index;
        CheckNoted(sys, s, t);
        var (s1, st) := Check(sys, s, t);
        if st > 0 {
          CheckAllNoted(sys, s1, goal, i + 1, st);
          NotedOn(s, s1, CheckAll(sys, s1, goal, i + 1, st).0);
        }
      }
    }
  }

  lemma BodyNoted(sys: System, s: Dres, t: nat)
    requires sys.Sized() && s.Fits(sys) && t < |sys.rules.targets| && s.active && s.saved != []
    ensures Noted(s, Body(sys, s, t).0)
    decreases |s.script|, 4
  {
    hide RunActions, CheckAll, Noted;
    var s1;
    if sys.rules.targets[t].prereqs.None? {
      ActionsNoted(sys, s, t);
      s1 := RunActions(sys, s, t).0;
    } else {
      CheckAllNoted(sys, s, t, 0, 0);
      s1 := CheckAll(sys, s, t, 0, 0).0;
    }
    NotedNothing(s1, TouchTarget(s1, t));
    NotedOn(s, s1, TouchTarget(s1, t));
  }

  lemma UpdateNoted(sys: System, s: Dres, goal: Option<string>)
    requires sys.Sized() && s.Fits(sys) && s.active && s.saved != []
    ensures Noted(s, UpdateGoal(sys, s, goal, None).0)
    decreases |s.script|, 5
  {
    hide Body, Noted;
    match sys.Goal(goal)
    case None => NotedNothing(s, s);
    case Some(t) =>
      NotedOpened(s);
      BodyNoted(sys, Opened(s), t);
      NotedOn(s, Opened(s), Body(sys, Opened(s), t).0);
  }

  lemma OuterNoted(sys: System, s: Dres, goal: Option<string>, args: Option<seq<LocalArg>>)
    requires sys.Sized() && s.Fits(sys) && !s.active
    ensures Noted(s, UpdateGoal(sys, s, goal, args).0)
  {
    hide Body, Noted, Opened, Commit, Rollback, sys.Goal, sys.Bind;
    NotedNothing(s, s);
    if sys.Goal(goal).Some? {
      var s0, t := Opened(s), sys.Goal(goal).value;
      OpenedFits(sys, s);
      NotedOpened(s);
      Closing(s, s0);
      BodyNoted(sys, s0, t);
      var s2 := Body(sys, s0, t).0;
      NotedOn(s, s0, s2);
      Closing(s, s2);
    }
  }

  lemma OpenedFits(sys: System, s: Dres)
    requires s.Fits(sys) && !s.active
    ensures Opened(s).Fits(sys) && Opened(s).active && Opened(s).saved != []
  {
  }

  /** In every update, however it ends and whatever is rolled back: a fact variable that
      was reported before or by the actions is restamped, or waits to be at the next
      resolve; and no other fact variable is. */
  lemma ReportsKept(sys: System, s: Dres, goal: Option<string>, args: Option<seq<LocalArg>>, k: nat)
    requires sys.Sized() && s.Fits(sys) && !s.active && k < |s.factvars|
    ensures var s1 := UpdateGoal(sys, s, goal, args).0;
            && |s1.script| <= |s.script| && |s1.factvars| == |s.factvars|
            && (Told(s, s1, k) ==> k in s1.pending || s1.factvars[k].stamp > s.stamp)
            && (!Told(s, s1, k) ==> k !in s1.pending && s1.factvars[k] == s.factvars[k])
  {
    hide UpdateGoal, Noted;
    OuterNoted(sys, s, goal, args);
    NotedHere(s, UpdateGoal(sys, s, goal, args).0, k);
  }

  lemma Closing(s: Dres, s1: Dres)
    requires Noted(s, s1) && s1.saved != []
    ensures Noted(s, Commit(s1)) && Noted(s, Rollback(s1))
  {
    hide Noted;
    NotedNothing(s1, Commit(s1));
    NotedNothing(s1, Rollback(s1));
    NotedOn(s, s1, Commit(s1));
    NotedOn(s, s1, Rollback(s1));
  }

  lemma NotedHere(s: Dres, s1: Dres, k: nat)
    requires Noted(s, s1) && k < |s.factvars|
    ensures |s1.script| <= |s.script| && |s1.factvars| == |s.factvars|
    ensures Told(s, s1, k) ==> k in s1.pending || s1.factvars[k].stamp > s.stamp
    ensures !Told(s, s1, k) ==> k !in s1.pending && s1.factvars[k] == s.factvars[k]
  {
    assert NotedAt(s, s1, k);
  }
}
