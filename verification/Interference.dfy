/** Why `Outdated` asks that goals resolved on the way share no target with the
    goal: a small rule file, and actions one of which resolves a target that has
    been checked already.  The update succeeds, but it runs a target twice, and
    leaves another older than what it needs. */
module Interference {
  import opened Words
  import opened Facts
  import opened Ids
  import opened Graph
  import opened Sort
  import opened Protocol
  import opened Transactions
  import opened Outdated

  function T(i: nat): Id {
    Id(Target, i, false, false)
  }

  /** goal: c b;  c: a;  b: d;  a and d need nothing. */
  function Sample(): Rules {
    Rules([Rule(T(0), Some([T(2), T(3)])), Rule(T(1), None), Rule(T(2), Some([T(1)])), Rule(T(3), Some([T(4)])),
           Rule(T(4), None)], 0, 0)
  }

  /** The orders the sort gives: a d c b goal, and so on. */
  function SampleOrder(t: nat): seq<nat> {
    if t == 0 then [1, 4, 2, 3, 0] else if t == 2 then [1, 2] else if t == 3 then [4, 3] else []
  }

  function Padded(order: seq<nat>): (list: seq<Option<Id>>)
    requires |order| <= 5
    ensures |list| == 6
  {
    seq(6, i requires 0 <= i < 6 => if i < |order| then Some(T(order[i])) else None)
  }

  function SampleSystem(): System {
    System(Sample(), ["goal", "a", "c", "b", "d"], [true, true, true, true, true],
           [Padded(SampleOrder(0)), Padded([]), Padded(SampleOrder(2)), Padded(SampleOrder(3)), Padded([])], [])
  }

  /** Every action returns success; the one of b resolves a before that. */
  const SCRIPT := [Return(1), Return(1), Return(1), Resolve(Some("a")), Return(1), Return(1), Return(1)]

  function Begins(w: World, script: seq<Act>): Dres {
    var zero := Stamps(0, 0, 0);
    Dres([zero, zero, zero, zero, zero], [], [], 1, 0, false, w, [], [], script, [], 0, 0)
  }

  // ------------------------------------------------------------------
  // The rules are proper ones
  // ------------------------------------------------------------------

  lemma SampleNeeds(t: nat, p: nat)
    ensures Sample().Needs(t, p) <==> (t == 0 && (p == 2 || p == 3)) || (t == 2 && p == 1) || (t == 3 && p == 4)
  {
    var r := Sample();
    if t == 0 {
      assert r.Prereqs(0) == [T(2), T(3)];
      assert r.Node(r.Prereqs(0)[0]) == 2 && r.Node(r.Prereqs(0)[1]) == 3;
    } else if t == 2 {
      assert r.Prereqs(2) == [T(1)] && r.Node(r.Prereqs(2)[0]) == 1;
    } else if t == 3 {
      assert r.Prereqs(3) == [T(4)] && r.Node(r.Prereqs(3)[0]) == 4;
    } else {
      assert r.Prereqs(t) == [];
    }
  }

  /** Nothing outside a closed set is reached. */
  lemma {:induction false} ReachesWithin(r: Rules, path: seq<nat>, inside: set<nat>)
    requires r.Chain(path) && path[0] in inside
    requires forall t: nat, p: nat | t in inside && r.Needs(t, p) :: p in inside
    ensures path[|path| - 1] in inside
  {
    if |path| > 1 {
      assert r.Needs(path[0], path[1]);
      var rest := path[1..];
      forall i | 0 <= i < |rest| - 1 ensures r.Needs(rest[i], rest[i + 1]) {
        assert r.Needs(path[i + 1], path[i + 2]);
      }
      ReachesWithin(r, rest, inside);
    }
  }

  /** The targets reached from each target. */
  function Within(t: nat): set<nat> {
    if t == 0 then {0, 1, 2, 3, 4} else if t == 2 then {1, 2} else if t == 3 then {3, 4} else {t}
  }

  lemma SampleReaches(goal: nat, t: nat)
    requires goal < 5
    ensures Sample().Reaches(goal, t) <==> t in Within(goal)
  {
    var r := Sample();
    forall t: nat, p: nat
      ensures r.Needs(t, p) <==> (t == 0 && (p == 2 || p == 3)) || (t == 2 && p == 1) || (t == 3 && p == 4)
    {
      SampleNeeds(t, p);
    }
    hide r.Needs;
    if r.Reaches(goal, t) {
      var path :| r.Chain(path) && path[0] == goal && path[|path| - 1] == t;
      ReachesWithin(r, path, Within(goal));
    }
    r.ReachSelf(goal);
    if goal == 0 {
      r.ReachNext(0, 0, 2);
      r.ReachNext(0, 0, 3);
      r.ReachNext(0, 2, 1);
      r.ReachNext(0, 3, 4);
    } else if goal == 2 {
      r.ReachNext(2, 2, 1);
    } else if goal == 3 {
      r.ReachNext(3, 3, 4);
    }
  }

  lemma SampleEdges(goal: nat, p: nat, t: nat)
    requires goal < 5
    ensures Sample().Edge(goal, p, t)
       <==> t in Within(goal) && ((t == 0 && (p == 2 || p == 3)) || (t == 2 && p == 1) || (t == 3 && p == 4))
  {
    SampleReaches(goal, t);
    SampleNeeds(t, p);
  }

  lemma SampleSorted(goal: nat)
    requires goal < 5
    ensures IsOrder(SampleSystem(), goal, SampleOrder(goal))
  {
    var r, order := Sample(), SampleOrder(goal);
    assert |order| <= 5 && forall i, j | 0 <= i < j < |order| :: order[i] != order[j];
    hide r.Edge, InGraph, Before, Sample, SampleOrder;
    forall v: nat ensures v in order <==> InGraph(r, goal, v) {
      SampleMembers(goal, v);
    }
    forall p: nat, t: nat | r.Edge(goal, p, t) ensures Before(order, p, t) {
      SampleBefore(goal, p, t);
    }
  }

  lemma SampleMembers(goal: nat, v: nat)
    requires goal < 5
    ensures v in SampleOrder(goal) <==> InGraph(Sample(), goal, v)
  {
    var r := Sample();
    forall p: nat, t: nat
      ensures r.Edge(goal, p, t)
         <==> t in Within(goal) && ((t == 0 && (p == 2 || p == 3)) || (t == 2 && p == 1) || (t == 3 && p == 4))
    {
      SampleEdges(goal, p, t);
    }
    hide r.Edge;
    if v in SampleOrder(goal) {
      if v == 0 || (v == 2 && goal == 0) {
        assert r.Edge(goal, 2, 0);
      } else if v == 1 || v == 2 {
        assert r.Edge(goal, 1, 2);
      } else {
        assert r.Edge(goal, 4, 3);
      }
    }
  }

  lemma SampleBefore(goal: nat, p: nat, t: nat)
    requires goal < 5 && Sample().Edge(goal, p, t)
    ensures Before(SampleOrder(goal), p, t)
  {
    SampleEdges(goal, p, t);
    hide Sample().Edge;
    var order := SampleOrder(goal);
    if goal == 0 {
      if t == 0 {
        assert order[if p == 2 then 2 else 3] == p && order[4] == t;
      } else if t == 2 {
        assert order[0] == p && order[2] == t;
      } else {
        assert order[1] == p && order[3] == t;
      }
    } else {
      assert order[0] == p && order[1] == t;
    }
  }

  lemma SampleLinked()
    ensures Linked(SampleSystem())
  {
    hide IsOrder;
    var sys := SampleSystem();
    forall t | 0 <= t < |sys.deps| ensures HasOrder(sys, t) {
      SampleSorted(t);
    }
  }

  // ------------------------------------------------------------------
  // The run
  // ------------------------------------------------------------------

  /** The state in the middle of the update: the stamps of the targets, the global one,
      how much of the script is gone, and what has been run. */
  function Mid(w: World, stamps: seq<int>, stamp: int, k: nat, ran: seq<Run>): Dres
    requires |stamps| == 5 && k <= |SCRIPT|
  {
    Dres(seq(5, i requires 0 <= i < 5 => if stamps[i] == 0 then Stamps(0, 0, 0) else Stamps(stamps[i], 1, 0)), [], [],
         stamp, 1, true, w, [w], [], SCRIPT[k..], ran, 1, 0)
  }

  lemma MidTouch(w: World, stamps: seq<int>, stamp: int, k: nat, ran: seq<Run>, t: nat)
    requires |stamps| == 5 && k <= |SCRIPT| && t < 5 && stamp != 0
    ensures TouchTarget(Mid(w, stamps, stamp, k, ran), t) == Mid(w, stamps[t := stamp], stamp, k, ran)
  {
    assert TouchTarget(Mid(w, stamps, stamp, k, ran), t).targets == Mid(w, stamps[t := stamp], stamp, k, ran).targets;
  }

  /** A target whose action just succeeds. */
  lemma MidRuns(w: World, stamps: seq<int>, stamp: int, k: nat, ran: seq<Run>, t: nat)
    requires |stamps| == 5 && k < |SCRIPT| && SCRIPT[k] == Return(1) && t < 5
    ensures RunActions(SampleSystem(), Mid(w, stamps, stamp, k, ran), t)
         == (Mid(w, stamps, stamp, k + 1, ran + [Run(t, 1)]), 1)
  {
    assert SCRIPT[k..][1..] == SCRIPT[k + 1..];
  }

  /** One stale target in its turn. */
  lemma MidChecks(w: World, stamps: seq<int>, stamp: int, k: nat, ran: seq<Run>, i: nat, status: int, t: nat)
    requires |stamps| == 5 && k < |SCRIPT| && SCRIPT[k] == Return(1) && stamp != 0
    requires i < 5 && SampleOrder(0)[i] == t && t < 5
    requires Stale(SampleSystem(), Mid(w, stamps, stamp, k, ran), t)
    ensures CheckAll(SampleSystem(), Mid(w, stamps, stamp, k, ran), 0, i, status)
         == CheckAll(SampleSystem(), Mid(w, stamps[t := stamp], stamp, k + 1, ran + [Run(t, 1)]), 0, i + 1, 1)
  {
    hide RunActions, Stale, Mid, TouchTarget;
    MidRuns(w, stamps, stamp, k, ran, t);
    MidTouch(w, stamps, stamp, k + 1, ran + [Run(t, 1)], t);
    MidFits(w, stamps, stamp, k, ran);
    MidFits(w, stamps[t := stamp], stamp, k + 1, ran + [Run(t, 1)]);
    assert SampleSystem().deps[0][i] == Some(T(t));
  }

  lemma MidFits(w: World, stamps: seq<int>, stamp: int, k: nat, ran: seq<Run>)
    requires |stamps| == 5 && k <= |SCRIPT|
    ensures var s := Mid(w, stamps, stamp, k, ran); s.Fits(SampleSystem()) && s.active && s.saved != []
  {
  }

  lemma MidStale(w: World, stamps: seq<int>, stamp: int, k: nat, ran: seq<Run>, t: nat)
    requires |stamps| == 5 && k <= |SCRIPT| && t < 5 && stamps[t] == 0
    requires t == 0 ==> stamps[2] > 0
    requires t == 2 ==> stamps[1] > 0
    requires t == 3 ==> stamps[4] > 0
    ensures Stale(SampleSystem(), Mid(w, stamps, stamp, k, ran), t)
  {
    var s, rule := Mid(w, stamps, stamp, k, ran), Sample().targets[t];
    if rule.prereqs.Some? {
      assert rule.prereqs.value[0] == T(if t == 0 then 2 else if t == 2 then 1 else 4);
      assert s.StampOf(rule.prereqs.value[0]) > s.targets[t].stamp;
    }
  }

  /** The action of b resolves a, which is run again and gets a newer stamp. */
  lemma MidResolves(w: World, stamps: seq<int>, stamp: int, ran: seq<Run>)
    requires |stamps| == 5 && stamp > 0
    ensures RunActions(SampleSystem(), Mid(w, stamps, stamp, 3, ran), 3)
         == (Mid(w, stamps[1 := stamp + 1], stamp + 1, 6, ran + [Run(1, 1)] + [Run(3, 1)]), 1)
  {
    var sys := SampleSystem();
    var s, s1 := Mid(w, stamps, stamp, 3, ran), Mid(w, stamps, stamp + 1, 4, ran);
    assert SCRIPT[3..][1..] == SCRIPT[4..] && SCRIPT[5..][1..] == SCRIPT[6..];
    assert Opened(s.(script := SCRIPT[4..])) == s1;
    assert sys.Find("a", 1) == Some(1);
    assert sys.Goal(Some("a")) == Some(1);
    MidRuns(w, stamps, stamp + 1, 4, ran, 1);
    MidTouch(w, stamps, stamp + 1, 5, ran + [Run(1, 1)], 1);
    var s2 := Mid(w, stamps[1 := stamp + 1], stamp + 1, 5, ran + [Run(1, 1)]);
    assert UpdateGoal(sys, s.(script := SCRIPT[4..]), Some("a"), None) == (s2, 1);
    hide UpdateGoal;
    assert RunScript(sys, s) == RunScript(sys, s2) == (s2.(script := SCRIPT[6..]), 1);
  }

  lemma MidChecksB(w: World, stamps: seq<int>, stamp: int, ran: seq<Run>)
    requires |stamps| == 5 && stamp > 0 && Stale(SampleSystem(), Mid(w, stamps, stamp, 3, ran), 3)
    ensures CheckAll(SampleSystem(), Mid(w, stamps, stamp, 3, ran), 0, 3, 1)
         == CheckAll(SampleSystem(), Mid(w, stamps[1 := stamp + 1][3 := stamp + 1], stamp + 1, 6,
                                         ran + [Run(1, 1)] + [Run(3, 1)]), 0, 4, 1)
  {
    hide RunActions, Stale, Mid, TouchTarget;
    MidResolves(w, stamps, stamp, ran);
    MidTouch(w, stamps[1 := stamp + 1], stamp + 1, 6, ran + [Run(1, 1)] + [Run(3, 1)], 3);
    MidFits(w, stamps, stamp, 3, ran);
    MidFits(w, stamps[1 := stamp + 1][3 := stamp + 1], stamp + 1, 6, ran + [Run(1, 1)] + [Run(3, 1)]);
    assert SampleSystem().deps[0][3] == Some(T(3));
  }

  /** a, d and c. */
  lemma RunsThree(w: World)
    ensures Mid(w, [0, 0, 0, 0, 0], 2, 0, []).Fits(SampleSystem())
    ensures Mid(w, [0, 2, 2, 0, 2], 2, 3, [Run(1, 1), Run(4, 1), Run(2, 1)]).Fits(SampleSystem())
    ensures CheckAll(SampleSystem(), Mid(w, [0, 0, 0, 0, 0], 2, 0, []), 0, 0, 0)
         == CheckAll(SampleSystem(), Mid(w, [0, 2, 2, 0, 2], 2, 3, [Run(1, 1), Run(4, 1), Run(2, 1)]), 0, 3, 1)
  {
    hide CheckAll, Stale, Mid;
    MidFits(w, [0, 0, 0, 0, 0], 2, 0, []);
    MidStale(w, [0, 0, 0, 0, 0], 2, 0, [], 1);
    MidChecks(w, [0, 0, 0, 0, 0], 2, 0, [], 0, 0, 1);
    assert [0, 0, 0, 0, 0][1 := 2] == [0, 2, 0, 0, 0];
    assert [] + [Run(1, 1)] == [Run(1, 1)];
    MidStale(w, [0, 2, 0, 0, 0], 2, 1, [Run(1, 1)], 4);
    MidChecks(w, [0, 2, 0, 0, 0], 2, 1, [Run(1, 1)], 1, 1, 4);
    assert [0, 2, 0, 0, 0][4 := 2] == [0, 2, 0, 0, 2];
    assert [Run(1, 1)] + [Run(4, 1)] == [Run(1, 1), Run(4, 1)];
    MidStale(w, [0, 2, 0, 0, 2], 2, 2, [Run(1, 1), Run(4, 1)], 2);
    MidChecks(w, [0, 2, 0, 0, 2], 2, 2, [Run(1, 1), Run(4, 1)], 2, 1, 2);
    assert [0, 2, 0, 0, 2][2 := 2] == [0, 2, 2, 0, 2];
    assert [Run(1, 1), Run(4, 1)] + [Run(2, 1)] == [Run(1, 1), Run(4, 1), Run(2, 1)];
    MidFits(w, [0, 2, 2, 0, 2], 2, 3, [Run(1, 1), Run(4, 1), Run(2, 1)]);
  }

  /** And then b, which resolves a, and the goal. */
  lemma RunsAll(w: World)
    ensures Mid(w, [0, 0, 0, 0, 0], 2, 0, []).Fits(SampleSystem())
    ensures CheckAll(SampleSystem(), Mid(w, [0, 0, 0, 0, 0], 2, 0, []), 0, 0, 0)
         == (Mid(w, [3, 3, 2, 3, 2], 3, 7, [Run(1, 1), Run(4, 1), Run(2, 1), Run(1, 1), Run(3, 1), Run(0, 1)]), 1)
  {
    hide CheckAll, Stale, Mid;
    RunsThree(w);
    var ran := [Run(1, 1), Run(4, 1), Run(2, 1)];
    MidStale(w, [0, 2, 2, 0, 2], 2, 3, ran, 3);
    MidChecksB(w, [0, 2, 2, 0, 2], 2, ran);
    assert [0, 2, 2, 0, 2][1 := 3][3 := 3] == [0, 3, 2, 3, 2];
    MidStale(w, [0, 3, 2, 3, 2], 3, 6, ran + [Run(1, 1)] + [Run(3, 1)], 0);
    MidChecks(w, [0, 3, 2, 3, 2], 3, 6, ran + [Run(1, 1)] + [Run(3, 1)], 4, 1, 0);
    assert [0, 3, 2, 3, 2][0 := 3] == [3, 3, 2, 3, 2];
    assert ran + [Run(1, 1)] + [Run(3, 1)] + [Run(0, 1)]
        == [Run(1, 1), Run(4, 1), Run(2, 1), Run(1, 1), Run(3, 1), Run(0, 1)];
    MidEnds(w, [3, 3, 2, 3, 2], 3, 7, ran + [Run(1, 1)] + [Run(3, 1)] + [Run(0, 1)]);
  }

  lemma MidEnds(w: World, stamps: seq<int>, stamp: int, k: nat, ran: seq<Run>)
    requires |stamps| == 5 && k <= |SCRIPT|
    ensures CheckAll(SampleSystem(), Mid(w, stamps, stamp, k, ran), 0, 5, 1) == (Mid(w, stamps, stamp, k, ran), 1)
  {
    MidFits(w, stamps, stamp, k, ran);
  }

  /** The update succeeds; target a has been run twice, the second time after c, and is
      newer than c now, although c needs it. */
  lemma RunsTwice(w: World)
    ensures var sys, s := SampleSystem(), Begins(w, SCRIPT);
            && Linked(sys) && s.Fits(sys) && Settled(s)
            && sys.Goal(None) == Some(0) && IsOrder(sys, 0, SampleOrder(0))
            && var (s1, status) := UpdateGoal(sys, s, None, None);
            && status > 0 && s1.Fits(sys)
            && s1.ran == [Run(1, 1), Run(4, 1), Run(2, 1), Run(1, 1), Run(3, 1), Run(0, 1)]
            && s1.targets[1].stamp > s1.targets[2].stamp && !NoneOlder(sys, s1, SampleOrder(0))
  {
    var sys, s := SampleSystem(), Begins(w, SCRIPT);
    SampleLinked();
    SampleSorted(0);
    hide Linked, IsOrder, CheckAll;
    assert SCRIPT[0..] == SCRIPT;
    assert Opened(s) == Mid(w, [0, 0, 0, 0, 0], 2, 0, []);
    RunsAll(w);
    var ran := [Run(1, 1), Run(4, 1), Run(2, 1), Run(1, 1), Run(3, 1), Run(0, 1)];
    MidTouch(w, [3, 3, 2, 3, 2], 3, 7, ran, 0);
    assert [3, 3, 2, 3, 2][0 := 3] == [3, 3, 2, 3, 2];
    var end := Commit(Mid(w, [3, 3, 2, 3, 2], 3, 7, ran));
    assert UpdateGoal(sys, s, None, None) == (end, 1);
    assert SampleOrder(0)[2] == 2 && sys.rules.Prereqs(2) == [T(1)];
    assert end.StampOf(sys.rules.Prereqs(2)[0]) == 3 && end.targets[2].stamp == 2;
  }
}
