/** Which targets an update runs when its actions resolve no goals that share a
    target with it: the outdated ones, each once, prerequisites first; and none
    when nothing has changed (src/dres.c:541-559, src/target.c:190-256). */
module Outdated {
  import opened Words
  import opened Facts
  import opened Ids
  import opened Graph
  import opened Sort
  import opened Protocol
  import opened Transactions

  /** The rules have been finalized: every list of dependencies is the one the sort
      has made. */
  ghost predicate Linked(sys: System) {
    && sys.Sized() && sys.rules.Valid()
    && (forall t | 0 <= t < |sys.deps| :: sys.rules.targets[t].prereqs != Some([]))
    && (forall t | 0 <= t < |sys.deps| :: HasOrder(sys, t))
  }

  ghost predicate HasOrder(sys: System, t: nat)
    requires t < |sys.deps|
  {
    exists order :: IsOrder(sys, t, order)
  }

  ghost predicate IsOrder(sys: System, t: nat, order: seq<nat>)
    requires t < |sys.deps|
  {
    StandsFor(sys.rules, sys.deps[t], order) && Topological(sys.rules, t, order)
  }

  /** The targets among the nodes of an order. */
  function TargetsIn(order: seq<nat>, ntarget: nat): seq<nat> {
    if order == [] then []
    else
      var rest, v := TargetsIn(order[..|order| - 1], ntarget), order[|order| - 1];
      if v < ntarget then rest + [v] else rest
  }

  lemma EntryOf(sys: System, t: nat, order: seq<nat>, i: nat)
    requires sys.Sized() && t < |sys.deps| && IsOrder(sys, t, order)
    requires i < |order|
    ensures i < |sys.deps[t]| && sys.deps[t][i].Some?
    ensures sys.deps[t][i].value.kind == Target <==> order[i] < |sys.rules.targets|
    ensures sys.deps[t][i].value.kind == Target ==> sys.deps[t][i].value.index == order[i]
  {
  }

  lemma EndOf(sys: System, t: nat, order: seq<nat>)
    requires t < |sys.deps| && IsOrder(sys, t, order)
    ensures |order| < |sys.deps[t]| && sys.deps[t][|order|] == None
  {
  }

  lemma {:induction false} ListedFrom(sys: System, t: nat, order: seq<nat>, i: nat)
    requires sys.Sized() && t < |sys.deps| && IsOrder(sys, t, order)
    requires i < |order| && order[|order| - 1] < |sys.rules.targets|
    ensures TargetsFrom(sys.deps[t], i) != []
    decreases |order| - i
  {
    hide IsOrder;
    EntryOf(sys, t, order, i);
    if i + 1 < |order| {
      ListedFrom(sys, t, order, i + 1);
    }
  }

  lemma LinkedListed(sys: System)
    requires Linked(sys)
    ensures Listed(sys)
  {
    hide IsOrder;
    forall t | 0 <= t < |sys.deps| && sys.rules.targets[t].prereqs.Some? ensures TargetsFrom(sys.deps[t], 0) != [] {
      assert HasOrder(sys, t);
      var order :| IsOrder(sys, t, order);
      OrderEnds(sys, t, order);
      ListedFrom(sys, t, order, 0);
    }
  }

  lemma OrderEnds(sys: System, t: nat, order: seq<nat>)
    requires sys.Sized() && t < |sys.deps| && IsOrder(sys, t, order) && sys.rules.Prereqs(t) != []
    ensures order != [] && order[|order| - 1] == t
  {
    GoalLast(sys.rules, t, order);
  }

  // ------------------------------------------------------------------
  // Outdated targets
  // ------------------------------------------------------------------

  /** A target is outdated if it or something it needs, directly or not, is without
      prerequisites or older than one of them. */
  ghost predicate IsOutdated(sys: System, s: Dres, t: nat)
    requires s.Fits(sys)
  {
    exists path, u :: StaleEnd(sys, s, path, u) && path[0] == t
  }

  ghost predicate StaleEnd(sys: System, s: Dres, path: seq<nat>, u: nat)
    requires s.Fits(sys)
  {
    sys.rules.Chain(path) && path[|path| - 1] == u && u < |sys.rules.targets| && Stale(sys, s, u)
  }

  lemma StaleIsOutdated(sys: System, s: Dres, t: nat)
    requires s.Fits(sys) && t < |s.targets| && Stale(sys, s, t)
    ensures IsOutdated(sys, s, t)
  {
    assert StaleEnd(sys, s, [t], t);
  }

  lemma NeedsOutdated(sys: System, s: Dres, t: nat, q: nat)
    requires s.Fits(sys) && sys.rules.Needs(t, q) && IsOutdated(sys, s, q)
    ensures IsOutdated(sys, s, t)
  {
    var path, u :| StaleEnd(sys, s, path, u) && path[0] == q;
    var longer := [t] + path;
    forall i | 0 <= i < |longer| - 1 ensures sys.rules.Needs(longer[i], longer[i + 1]) {
      if i > 0 {
        assert sys.rules.Needs(path[i - 1], path[i]);
      }
    }
    assert StaleEnd(sys, s, longer, u);
  }

  /** Outdated targets are stale themselves or need an outdated target. */
  lemma OutdatedBecause(sys: System, s: Dres, t: nat) returns (q: nat)
    requires s.Fits(sys) && sys.rules.Valid() && t < |s.targets| && IsOutdated(sys, s, t)
    ensures Stale(sys, s, t) || (sys.rules.Needs(t, q) && q < |s.targets| && IsOutdated(sys, s, q))
  {
    q := 0;
    var path, u :| StaleEnd(sys, s, path, u) && path[0] == t;
    if |path| > 1 {
      q := path[1];
      var rest := path[1..];
      assert sys.rules.Needs(path[0], path[1]);
      forall i | 0 <= i < |rest| - 1 ensures sys.rules.Needs(rest[i], rest[i + 1]) {
        assert sys.rules.Needs(path[i + 1], path[i + 2]);
      }
      assert StaleEnd(sys, s, rest, u);
      if |rest| > 1 {
        assert sys.rules.Needs(path[1], path[2]);
        sys.rules.NeedsInRange(path[1], path[2]);
      }
    }
  }

  /** The outdated targets among the nodes of an order. */
  ghost function Due(sys: System, s: Dres, order: seq<nat>): seq<nat>
    requires s.Fits(sys)
  {
    if order == [] then []
    else
      var rest, v := Due(sys, s, order[..|order| - 1]), order[|order| - 1];
      if v < |sys.rules.targets| && IsOutdated(sys, s, v) then rest + [v] else rest
  }

  lemma {:induction false} DueHas(sys: System, s: Dres, order: seq<nat>)
    requires s.Fits(sys)
    ensures forall t :: t in Due(sys, s, order) <==> t in order && t < |sys.rules.targets| && IsOutdated(sys, s, t)
    ensures Distinct(order) ==> Distinct(Due(sys, s, order))
  {
    hide IsOutdated;
    if order != [] {
      var init := order[..|order| - 1];
      DueHas(sys, s, init);
      assert order == init + [order[|order| - 1]];
      if Distinct(order) {
        assert Distinct(init) && order[|order| - 1] !in init;
      }
    }
  }

  // ------------------------------------------------------------------
  // Actions that leave a graph alone
  // ------------------------------------------------------------------

  /** A goal resolved on the way has no target in common with `nodes`. */
  predicate Foreign(sys: System, nodes: seq<nat>, goal: Option<string>)
    requires sys.Sized()
  {
    match sys.Goal(goal)
    case None => true
    case Some(t) => t !in nodes && AllForeign(sys, nodes, t)
  }

  predicate AllForeign(sys: System, nodes: seq<nat>, t: nat)
    requires sys.Sized() && t < |sys.deps|
  {
    forall j | 0 <= j < |sys.deps[t]| && sys.deps[t][j].Some? && sys.deps[t][j].value.kind == Target ::
      sys.deps[t][j].value.index !in nodes
  }

  predicate Resolves(script: seq<Act>) {
    exists i | 0 <= i < |script| :: script[i].Resolve?
  }

  /** None of the changed fact variables is among `nodes`. */
  predicate Elsewhere(sys: System, nodes: seq<nat>, changed: seq<nat>) {
    forall l | 0 <= l < |changed| :: |sys.rules.targets| + changed[l] !in nodes
  }

  /** The goals that actions resolve share no target with `nodes`, and whatever they
      report as changed before resolving one is not in `nodes` either.  Actions that
      resolve nothing may report anything. */
  predicate Calm(sys: System, nodes: seq<nat>, script: seq<Act>)
    requires sys.Sized()
  {
    && (forall i | 0 <= i < |script| && script[i].Resolve? :: Foreign(sys, nodes, script[i].goal))
    && (forall i, j | 0 <= i < j < |script| && script[i].Write? && script[j].Resolve? ::
          Elsewhere(sys, nodes, script[i].changed))
  }

  /** The same in the middle of an update, with changes still to be taken in. */
  ghost predicate CalmNow(sys: System, nodes: seq<nat>, s: Dres)
    requires sys.Sized()
  {
    Calm(sys, nodes, s.script) && (Resolves(s.script) ==> Elsewhere(sys, nodes, s.pending))
  }

  lemma CalmStep(sys: System, nodes: seq<nat>, s: Dres)
    requires sys.Sized() && CalmNow(sys, nodes, s) && s.script != []
    ensures CalmNow(sys, nodes, s.(script := s.script[1..]))
    ensures s.script[0].Resolve? ==> Foreign(sys, nodes, s.script[0].goal) && Elsewhere(sys, nodes, s.pending)
    ensures s.script[0].Write? ==>
              CalmNow(sys, nodes, s.(script := s.script[1..], pending := s.pending + s.script[0].changed))
  {
    hide Foreign;
    var rest := s.script[1..];
    assert forall i | 0 <= i < |rest| :: rest[i] == s.script[i + 1];
    if Resolves(rest) {
      var i :| 0 <= i < |rest| && rest[i].Resolve?;
      assert s.script[i + 1].Resolve?;
    }
  }

  /** What is done to other targets: the ones among `nodes` keep their stamps, and none
      of them is run. */
  ghost predicate Aside(sys: System, nodes: seq<nat>, s: Dres, s1: Dres) {
    && SameShape(s, s1) && s1.dresvars == s.dresvars && s1.txid == s.txid && s1.saved == s.saved && s.stamp <= s1.stamp
    && (forall t | 0 <= t < |s.targets| && t in nodes :: s1.targets[t] == s.targets[t])
    && (forall k | 0 <= k < |s.factvars| && |sys.rules.targets| + k in nodes :: s1.factvars[k] == s.factvars[k])
    && s.ran <= s1.ran && RanIn(s1.ran[|s.ran|..], nodes) == []
  }

  /** The targets run that are among `nodes`, in the order in which they were run. */
  function RanIn(ran: seq<Run>, nodes: seq<nat>): seq<nat> {
    if ran == [] then []
    else
      var rest, last := RanIn(ran[..|ran| - 1], nodes), ran[|ran| - 1].target;
      if last in nodes then rest + [last] else rest
  }

  lemma {:induction false} RanTogether(a: seq<Run>, b: seq<Run>, nodes: seq<nat>)
    ensures RanIn(a + b, nodes) == RanIn(a, nodes) + RanIn(b, nodes)
  {
    if b == [] {
      assert a + b == a;
    } else {
      RanTogether(a, b[..|b| - 1], nodes);
      assert (a + b)[..|a + b| - 1] == a + b[..|b| - 1];
    }
  }

  lemma AsideSelf(sys: System, nodes: seq<nat>, s: Dres)
    ensures Aside(sys, nodes, s, s)
  {
  }

  lemma AsideOn(sys: System, nodes: seq<nat>, s: Dres, s1: Dres, s2: Dres)
    requires Aside(sys, nodes, s, s1) && Aside(sys, nodes, s1, s2)
    ensures Aside(sys, nodes, s, s2)
  {
    RanTogether(s1.ran[|s.ran|..], s2.ran[|s1.ran|..], nodes);
    assert s2.ran[|s.ran|..] == s1.ran[|s.ran|..] + s2.ran[|s1.ran|..];
  }

  lemma AsideTouch(sys: System, nodes: seq<nat>, s: Dres, t: nat)
    requires sys.Sized() && t < |s.targets| && t !in nodes
    ensures Aside(sys, nodes, s, TouchTarget(s, t))
    ensures CalmNow(sys, nodes, s) ==> CalmNow(sys, nodes, TouchTarget(s, t))
  {
  }

  lemma {:induction false} TouchElsewhere(sys: System, nodes: seq<nat>, v: seq<Stamps>, changes: seq<nat>, txid: int,
                                          now: int)
    requires Elsewhere(sys, nodes, changes)
    ensures forall k | 0 <= k < |v| && |sys.rules.targets| + k in nodes :: TouchVars(v, changes, txid, now)[k] == v[k]
  {
    if changes != [] {
      TouchElsewhere(sys, nodes, v, changes[..|changes| - 1], txid, now);
    }
  }

  lemma AsideOpened(sys: System, nodes: seq<nat>, s: Dres)
    requires sys.Sized() && s.active && CalmNow(sys, nodes, s) && Elsewhere(sys, nodes, s.pending)
    ensures Aside(sys, nodes, s, Opened(s)) && CalmNow(sys, nodes, Opened(s)) && Opened(s).Fits(sys) == s.Fits(sys)
  {
    TouchElsewhere(sys, nodes, s.factvars, s.pending, s.txid, s.stamp + 1);
  }

  /** The code of a target does nothing to `nodes` if it is calm. */
  lemma AsideScript(sys: System, nodes: seq<nat>, s: Dres)
    requires sys.Sized() && s.Fits(sys) && s.active && s.saved != [] && CalmNow(sys, nodes, s)
    ensures var s1 := RunScript(sys, s).0; Aside(sys, nodes, s, s1) && CalmNow(sys, nodes, s1)
    decreases |s.script|, 0
  {
    hide UpdateGoal, Aside, CalmNow, Foreign;
    AsideSelf(sys, nodes, s);
    if s.script != [] {
      var s1 := s.(script := s.script[1..]);
      CalmStep(sys, nodes, s);
      match s.script[0]
      case Write(facts, changed) =>
        var s2 := s1.(facts := facts, pending := s1.pending + changed);
        AsideOnly(sys, nodes, s, s2);
        CalmOnly(sys, nodes, s1.(pending := s1.pending + changed), s2);
        AsideScript(sys, nodes, s2);
        AsideOn(sys, nodes, s, s2, RunScript(sys, s2).0);
      case Resolve(goal) =>
        AsideOnly(sys, nodes, s, s1);
        AsideUpdate(sys, nodes, s1, goal);
        var (s2, status) := UpdateGoal(sys, s1, goal, None);
        AsideOn(sys, nodes, s, s1, s2);
        if status > 0 {
          AsideFits(sys, nodes, s1, s2);
          AsideScript(sys, nodes, s2);
          AsideOn(sys, nodes, s, s2, RunScript(sys, s2).0);
        }
      case Return(status) =>
        AsideOnly(sys, nodes, s, s1);
    }
  }

  lemma AsideOnly(sys: System, nodes: seq<nat>, s: Dres, s1: Dres)
    requires s.script != [] && s1 == s.(script := s.script[1..], facts := s1.facts, pending := s1.pending)
    ensures Aside(sys, nodes, s, s1)
  {
  }

  lemma CalmOnly(sys: System, nodes: seq<nat>, s: Dres, s1: Dres)
    requires sys.Sized() && CalmNow(sys, nodes, s) && s1.script == s.script && s1.pending == s.pending
    ensures CalmNow(sys, nodes, s1)
  {
  }

  lemma AsideFits(sys: System, nodes: seq<nat>, s: Dres, s1: Dres)
    requires s.Fits(sys) && s.active && s.saved != [] && Aside(sys, nodes, s, s1)
    ensures s1.Fits(sys) && s1.active && s1.saved != []
  {
  }

  /** Running a target, which may be one of `nodes`, does nothing else to them. */
  lemma AsideActions(sys: System, nodes: seq<nat>, s: Dres, t: nat) returns (s0: Dres)
    requires sys.Sized() && s.Fits(sys) && t < |sys.rules.targets| && s.active && s.saved != []
    requires CalmNow(sys, nodes, s)
    ensures var (s1, status) := RunActions(sys, s, t);
            && s1 == s0.(ran := s0.ran + [Run(t, status)])
            && Aside(sys, nodes, s, s0) && CalmNow(sys, nodes, s1)
            && (t !in nodes ==> Aside(sys, nodes, s, s1))
    decreases |s.script|, 1
  {
    hide RunScript, Aside, CalmNow;
    s0 := s;
    AsideSelf(sys, nodes, s);
    if sys.hasCode[t] {
      AsideScript(sys, nodes, s);
      s0 := RunScript(sys, s).0;
    }
    var (s1, status) := RunActions(sys, s, t);
    CalmOnly(sys, nodes, s0, s1);
    if t !in nodes {
      AsideRun(sys, nodes, s0, Run(t, status));
      AsideOn(sys, nodes, s, s0, s1);
    }
  }

  lemma AsideRun(sys: System, nodes: seq<nat>, s: Dres, run: Run)
    requires run.target !in nodes
    ensures Aside(sys, nodes, s, s.(ran := s.ran + [run]))
  {
    assert (s.ran + [run])[|s.ran|..] == [run];
    assert [run][..0] == [];
  }

  lemma AsideCheck(sys: System, nodes: seq<nat>, s: Dres, t: nat)
    requires sys.Sized() && s.Fits(sys) && t < |sys.rules.targets| && s.active && s.saved != []
    requires CalmNow(sys, nodes, s)
    requires t !in nodes
    ensures var s1 := Check(sys, s, t).0; Aside(sys, nodes, s, s1) && CalmNow(sys, nodes, s1)
    decreases |s.script|, 2
  {
    hide RunActions, Aside, CalmNow;
    AsideSelf(sys, nodes, s);
    if Stale(sys, s, t) {
      var s0 := AsideActions(sys, nodes, s, t);
      var s1 := RunActions(sys, s, t).0;
      AsideTouch(sys, nodes, s1, t);
      AsideOn(sys, nodes, s, s1, TouchTarget(s1, t));
    }
  }

  lemma AsideCheckAll(sys: System, nodes: seq<nat>, s: Dres, goal: nat, i: nat, status: int)
    requires sys.Sized() && s.Fits(sys) && goal < |sys.rules.targets| && s.active && s.saved != []
    requires CalmNow(sys, nodes, s)
    requires AllForeign(sys, nodes, goal)
    ensures var s1 := CheckAll(sys, s, goal, i, status).0; Aside(sys, nodes, s, s1) && CalmNow(sys, nodes, s1)
    decreases |s.script|, 3, |sys.deps[goal]| - i
  {
    hide Check, Aside, CalmNow;
    AsideSelf(sys, nodes, s);
    if i < |sys.deps[goal]| && sys.deps[goal][i].Some? {
      if sys.deps[goal][i].value.kind != Target {
        AsideCheckAll(sys, nodes, s, goal, i + 1, status);
      } else {
        var t := sys.deps[goal][i].value.index;
        AsideCheck(sys, nodes, s, t);
        var (s1, st) := Check(sys, s, t);
        if st > 0 {
          AsideFits(sys, nodes, s, s1);
          AsideCheckAll(sys, nodes, s1, goal, i + 1, st);
          AsideOn(sys, nodes, s, s1, CheckAll(sys, s1, goal, i + 1, st).0);
        }
      }
    }
  }

  lemma AsideBody(sys: System, nodes: seq<nat>, s: Dres, t: nat)
    requires sys.Sized() && s.Fits(sys) && t < |sys.rules.targets| && s.active && s.saved != []
    requires CalmNow(sys, nodes, s)
    requires t !in nodes && AllForeign(sys, nodes, t)
    ensures var s1 := Body(sys, s, t).0; Aside(sys, nodes, s, s1) && CalmNow(sys, nodes, s1)
    decreases |s.script|, 4
  {
    hide RunActions, CheckAll, Aside, CalmNow, AllForeign;
    var s1;
    if sys.rules.targets[t].prereqs.None? {
      var s0 := AsideActions(sys, nodes, s, t);
      s1 := RunActions(sys, s, t).0;
    } else {
      AsideCheckAll(sys, nodes, s, t, 0, 0);
      s1 := CheckAll(sys, s, t, 0, 0).0;
    }
    AsideFits(sys, nodes, s, s1);
    AsideTouch(sys, nodes, s1, t);
    AsideOn(sys, nodes, s, s1, TouchTarget(s1, t));
  }

  /** A foreign goal resolved on the way, with everything it resolves in turn. */
  lemma AsideUpdate(sys: System, nodes: seq<nat>, s: Dres, goal: Option<string>)
    requires sys.Sized() && s.Fits(sys) && s.active && s.saved != [] && CalmNow(sys, nodes, s)
    requires Foreign(sys, nodes, goal) && Elsewhere(sys, nodes, s.pending)
    ensures var s1 := UpdateGoal(sys, s, goal, None).0; Aside(sys, nodes, s, s1) && CalmNow(sys, nodes, s1)
    decreases |s.script|, 5
  {
    hide Body, Aside, CalmNow, Opened, AllForeign;
    AsideSelf(sys, nodes, s);
    match sys.Goal(goal)
    case None =>
    case Some(t) =>
      AsideOpened(sys, nodes, s);
      AsideFits(sys, nodes, s, Opened(s));
      AsideBody(sys, nodes, Opened(s), t);
      AsideOn(sys, nodes, s, Opened(s), Body(sys, Opened(s), t).0);
  }

  // ------------------------------------------------------------------
  // The loop over the dependencies
  // ------------------------------------------------------------------

  /** No target of the order is older than what it needs. */
  ghost predicate NoneOlder(sys: System, s: Dres, order: seq<nat>)
    requires s.Fits(sys)
  {
    forall i, j | 0 <= i < |order| && order[i] < |s.targets| && 0 <= j < |sys.rules.Prereqs(order[i])| ::
      s.StampOf(sys.rules.Prereqs(order[i])[j]) <= s.targets[order[i]].stamp
  }

  /** A target of the order has been stamped since `s0`, or not at all. */
  ghost predicate StampedRight(sys: System, s0: Dres, s: Dres, order: seq<nat>, i: nat, t: nat)
    requires s0.Fits(sys) && i <= |order| && t < |s0.targets| == |s.targets|
  {
    if t in order[..i] && IsOutdated(sys, s0, t) then s0.stamp <= s.targets[t].stamp <= s.stamp
    else s.targets[t].stamp == s0.targets[t].stamp
  }

  /** Where the loop over the dependencies is after the first `i` nodes of the
      order, having begun in `s0`. */
  ghost predicate Progress(sys: System, s0: Dres, s: Dres, order: seq<nat>, i: nat)
    requires sys.Sized() && s0.Fits(sys)
  {
    && i <= |order| && s.Fits(sys)
    && s.dresvars == s0.dresvars && s0.stamp <= s.stamp && s.txid == s0.txid
    && s.active && s.saved == s0.saved && CalmNow(sys, order, s)
    && (forall k | 0 <= k < |s0.factvars| && |sys.rules.targets| + k in order :: s.factvars[k] == s0.factvars[k])
    && (forall t | 0 <= t < |s0.targets| && t in order :: StampedRight(sys, s0, s, order, i, t))
    && s0.ran <= s.ran && RanIn(s.ran[|s0.ran|..], order) == Due(sys, s0, order[..i])
    && NoneOlder(sys, s, order[..i])
  }

  /** Every stamp is old. */
  ghost predicate AllOld(s: Dres) {
    && (forall t | 0 <= t < |s.targets| :: s.targets[t].stamp < s.stamp)
    && (forall k | 0 <= k < |s.factvars| :: s.factvars[k].stamp <= s.stamp)
    && (forall k | 0 <= k < |s.dresvars| :: s.dresvars[k].stamp <= s.stamp)
  }

  /** The stamp of something a target of the order needs. */
  lemma StampNow(sys: System, s0: Dres, s: Dres, order: seq<nat>, i: nat, id: Id)
    requires sys.Sized() && s0.Fits(sys) && AllOld(s0) && Progress(sys, s0, s, order, i)
    requires sys.rules.Known(id) && sys.rules.Node(id) in order[..i]
    ensures s.StampOf(id) <= s.stamp
    ensures if id.kind == Target && id.index < |s0.targets| && IsOutdated(sys, s0, id.index)
            then s0.stamp <= s.StampOf(id)
            else s.StampOf(id) == s0.StampOf(id)
  {
    hide IsOutdated, Due, NoneOlder, CalmNow, RanIn;
    assert sys.rules.Node(id) in order;
    if id.kind == Target {
      assert StampedRight(sys, s0, s, order, i, id.index);
    }
  }

  /** In dependency order, a target turns out stale exactly if it was outdated at the
      beginning. */
  lemma StaleIff(sys: System, s0: Dres, s: Dres, order: seq<nat>, i: nat, t: nat)
    requires sys.Sized() && sys.rules.Valid() && s0.Fits(sys) && AllOld(s0) && Progress(sys, s0, s, order, i)
    requires t < |s0.targets| && t in order && t !in order[..i]
    requires forall q: nat | sys.rules.Needs(t, q) :: q in order[..i]
    ensures s.Fits(sys) && (Stale(sys, s, t) <==> IsOutdated(sys, s0, t))
  {
    hide IsOutdated, Progress;
    ProgressAt(sys, s0, s, order, i, t);
    var prereqs := sys.rules.targets[t].prereqs;
    if prereqs.None? {
      StaleIsOutdated(sys, s0, t);
    } else {
      if IsOutdated(sys, s0, t) {
        var j := OldOrOutdated(sys, s0, t);
        NeedsEach(sys.rules, t, j);
        StampNow(sys, s0, s, order, i, prereqs.value[j]);
      }
      if Stale(sys, s, t) {
        var j := StaleAt(sys, s, t);
        NeedsEach(sys.rules, t, j);
        StampNow(sys, s0, s, order, i, prereqs.value[j]);
        if prereqs.value[j].kind == Target && IsOutdated(sys, s0, prereqs.value[j].index) {
          NeedsOutdated(sys, s0, t, prereqs.value[j].index);
        } else {
          StaleIsOutdated(sys, s0, t);
        }
      }
    }
  }

  lemma ProgressAt(sys: System, s0: Dres, s: Dres, order: seq<nat>, i: nat, t: nat)
    requires sys.Sized() && s0.Fits(sys) && Progress(sys, s0, s, order, i)
    requires t < |s0.targets| && t in order && t !in order[..i]
    ensures s.Fits(sys) && s.targets[t].stamp == s0.targets[t].stamp
  {
    assert StampedRight(sys, s0, s, order, i, t);
  }

  lemma NeedsEach(r: Rules, t: nat, j: nat)
    requires r.Valid() && j < |r.Prereqs(t)|
    ensures r.Needs(t, r.Node(r.Prereqs(t)[j])) && r.Known(r.Prereqs(t)[j])
  {
  }

  /** An outdated target with prerequisites has one that is newer or outdated. */
  lemma OldOrOutdated(sys: System, s: Dres, t: nat) returns (j: nat)
    requires s.Fits(sys) && sys.rules.Valid() && t < |s.targets| && IsOutdated(sys, s, t)
    requires sys.rules.targets[t].prereqs.Some?
    ensures j < |sys.rules.targets[t].prereqs.value|
    ensures var id := sys.rules.targets[t].prereqs.value[j];
            s.StampOf(id) > s.targets[t].stamp
            || (id.kind == Target && id.index < |s.targets| && IsOutdated(sys, s, id.index))
  {
    var q := OutdatedBecause(sys, s, t);
    if Stale(sys, s, t) {
      j := StaleAt(sys, s, t);
    } else {
      j := NeedAt(sys.rules, t, q);
    }
  }

  lemma StaleAt(sys: System, s: Dres, t: nat) returns (j: nat)
    requires s.Fits(sys) && t < |s.targets| && Stale(sys, s, t) && sys.rules.targets[t].prereqs.Some?
    ensures j < |sys.rules.targets[t].prereqs.value|
    ensures s.StampOf(sys.rules.targets[t].prereqs.value[j]) > s.targets[t].stamp
  {
    var ids := sys.rules.targets[t].prereqs.value;
    j :| 0 <= j < |ids| && s.StampOf(ids[j]) > s.targets[t].stamp;
  }

  lemma NeedAt(r: Rules, t: nat, q: nat) returns (j: nat)
    requires r.Valid() && r.Needs(t, q) && q < |r.targets|
    ensures t < |r.targets| && r.targets[t].prereqs.Some? && j < |r.targets[t].prereqs.value|
    ensures r.targets[t].prereqs.value[j].kind == Target && r.targets[t].prereqs.value[j].index == q
  {
    j :| 0 <= j < |r.Prereqs(t)| && r.Node(r.Prereqs(t)[j]) == q;
  }

  /** The loop over the dependencies: up to the first target whose actions do not
      succeed, it runs exactly the outdated targets, in dependency order. */
  lemma {:induction false} CheckAllCalm(sys: System, s0: Dres, s: Dres, goal: nat, order: seq<nat>, i: nat, status: int)
    requires sys.Sized() && sys.rules.Valid() && goal < |sys.deps| && IsOrder(sys, goal, order)
    requires s0.Fits(sys) && AllOld(s0) && Progress(sys, s0, s, order, i) && s0.saved != []
    ensures s.Fits(sys)
    ensures var (s1, st) := CheckAll(sys, s, goal, i, status);
            && (st > 0 ==> Progress(sys, s0, s1, order, |order|))
            && s0.ran <= s1.ran && RanIn(s1.ran[|s0.ran|..], order) <= Due(sys, s0, order)
    decreases |order| - i
  {
    hide IsOrder, Check, Due, IsOutdated, Progress, RanIn;
    ProgressFits(sys, s0, s, order, i);
    if i == |order| {
      EndOf(sys, goal, order);
      ProgressRan(sys, s0, s, order, i);
    } else {
      EntryOf(sys, goal, order, i);
      var t := order[i];
      if t >= |sys.rules.targets| {
        ProgressSkips(sys, s0, s, order, i);
        CheckAllCalm(sys, s0, s, goal, order, i + 1, status);
      } else {
        CheckCalm(sys, s0, s, goal, order, i);
        var (s1, st) := Check(sys, s, t);
        if st > 0 {
          CheckAllCalm(sys, s0, s1, goal, order, i + 1, st);
        }
      }
    }
  }

  lemma ProgressFits(sys: System, s0: Dres, s: Dres, order: seq<nat>, i: nat)
    requires sys.Sized() && s0.Fits(sys) && Progress(sys, s0, s, order, i)
    ensures s.Fits(sys) && s.active && s.saved == s0.saved && CalmNow(sys, order, s) && i <= |order|
  {
  }

  lemma {:induction false} DueGrows(sys: System, s: Dres, order: seq<nat>, i: nat)
    requires s.Fits(sys) && i <= |order|
    ensures Due(sys, s, order[..i]) <= Due(sys, s, order)
  {
    hide IsOutdated;
    if i < |order| {
      DueGrows(sys, s, order[..|order| - 1], i);
      assert order[..|order| - 1][..i] == order[..i];
    } else {
      assert order[..i] == order;
    }
  }

  lemma ProgressRan(sys: System, s0: Dres, s: Dres, order: seq<nat>, i: nat)
    requires sys.Sized() && s0.Fits(sys) && Progress(sys, s0, s, order, i)
    ensures s0.ran <= s.ran && RanIn(s.ran[|s0.ran|..], order) <= Due(sys, s0, order)
  {
    DueGrows(sys, s0, order, i);
  }

  lemma InNext(order: seq<nat>, i: nat)
    requires i < |order|
    ensures order[..i + 1] == order[..i] + [order[i]] && order[..i + 1][..i] == order[..i]
    ensures forall t: nat :: t in order[..i + 1] <==> t in order[..i] || t == order[i]
  {
    assert order[..i + 1] == order[..i] + [order[i]];
  }

  lemma DueNext(sys: System, s: Dres, order: seq<nat>, i: nat)
    requires s.Fits(sys) && i < |order|
    ensures Due(sys, s, order[..i + 1])
         == if order[i] < |sys.rules.targets| && IsOutdated(sys, s, order[i]) then Due(sys, s, order[..i]) + [order[i]]
            else Due(sys, s, order[..i])
  {
    hide IsOutdated;
    assert order[..i + 1][..i] == order[..i];
  }

  lemma NoneOlderNext(sys: System, s: Dres, order: seq<nat>, i: nat)
    requires s.Fits(sys) && i < |order| && NoneOlder(sys, s, order[..i])
    requires order[i] < |s.targets| ==>
               forall j | 0 <= j < |sys.rules.Prereqs(order[i])| ::
                 s.StampOf(sys.rules.Prereqs(order[i])[j]) <= s.targets[order[i]].stamp
    ensures NoneOlder(sys, s, order[..i + 1])
  {
    InNext(order, i);
  }

  /** The next node is not a target, or a target that is not outdated. */
  lemma ProgressKeeps(sys: System, s0: Dres, s: Dres, order: seq<nat>, i: nat)
    requires sys.Sized() && s0.Fits(sys) && Progress(sys, s0, s, order, i) && i < |order|
    requires order[i] < |sys.rules.targets| ==> !IsOutdated(sys, s0, order[i]) && !Stale(sys, s, order[i])
    ensures Progress(sys, s0, s, order, i + 1)
  {
    hide IsOutdated, Due, CalmNow, RanIn;
    DueNext(sys, s0, order, i);
    InNext(order, i);
    FreshOlder(sys, s, order, i);
    hide NoneOlder;
    forall t | 0 <= t < |s0.targets| && t in order ensures StampedRight(sys, s0, s, order, i + 1, t) {
      assert StampedRight(sys, s0, s, order, i, t);
    }
  }

  lemma FreshOlder(sys: System, s: Dres, order: seq<nat>, i: nat)
    requires s.Fits(sys) && i < |order| && NoneOlder(sys, s, order[..i])
    requires order[i] < |s.targets| ==> !Stale(sys, s, order[i])
    ensures NoneOlder(sys, s, order[..i + 1])
  {
    NoneOlderNext(sys, s, order, i);
  }

  lemma ProgressSkips(sys: System, s0: Dres, s: Dres, order: seq<nat>, i: nat)
    requires sys.Sized() && s0.Fits(sys) && Progress(sys, s0, s, order, i) && i < |order| && order[i] >= |s0.targets|
    ensures Progress(sys, s0, s, order, i + 1)
  {
    ProgressKeeps(sys, s0, s, order, i);
  }

  /** Everything up to node `i` needs only nodes before itself. */
  ghost predicate Ordered(sys: System, order: seq<nat>, i: nat)
    requires i < |order|
  {
    forall k, q: nat | 0 <= k <= i && sys.rules.Needs(order[k], q) :: q in order[..k]
  }

  lemma OrderedAt(sys: System, order: seq<nat>, i: nat, k: nat, q: nat)
    requires i < |order| && Ordered(sys, order, i) && k <= i && sys.rules.Needs(order[k], q)
    ensures q in order[..k] && q in order[..i] && q in order
  {
    assert order[..k] <= order[..i] <= order;
  }

  /** What foreign goals do on the way does not matter. */
  lemma ProgressAside(sys: System, s0: Dres, s: Dres, s1: Dres, order: seq<nat>, i: nat)
    requires sys.Sized() && sys.rules.Valid() && s0.Fits(sys) && Progress(sys, s0, s, order, i)
    requires Aside(sys, order, s, s1) && CalmNow(sys, order, s1)
    requires i < |order| && Ordered(sys, order, i)
    ensures Progress(sys, s0, s1, order, i)
  {
    hide IsOutdated, Due, CalmNow, RanIn;
    RanTogether(s.ran[|s0.ran|..], s1.ran[|s.ran|..], order);
    assert s1.ran[|s0.ran|..] == s.ran[|s0.ran|..] + s1.ran[|s.ran|..];
    forall t | 0 <= t < |s0.targets| && t in order ensures StampedRight(sys, s0, s1, order, i, t) {
      assert StampedRight(sys, s0, s, order, i, t);
    }
    OlderAside(sys, s, s1, order, i);
  }

  lemma OlderAside(sys: System, s: Dres, s1: Dres, order: seq<nat>, i: nat)
    requires sys.Sized() && sys.rules.Valid() && s.Fits(sys) && i <= |order| && NoneOlder(sys, s, order[..i])
    requires Aside(sys, order, s, s1)
    requires i < |order| && Ordered(sys, order, i)
    ensures s1.Fits(sys) && NoneOlder(sys, s1, order[..i])
  {
    var done := order[..i];
    forall k, j | 0 <= k < |done| && done[k] < |s1.targets| && 0 <= j < |sys.rules.Prereqs(done[k])|
      ensures s1.StampOf(sys.rules.Prereqs(done[k])[j]) <= s1.targets[done[k]].stamp
    {
      NeedsEach(sys.rules, done[k], j);
      assert order[k] == done[k];
      OrderedAt(sys, order, i, k, sys.rules.Node(sys.rules.Prereqs(order[k])[j]));
      assert s.StampOf(sys.rules.Prereqs(done[k])[j]) <= s.targets[done[k]].stamp;
    }
  }

  /** An outdated target has been run, and gets its stamp. */
  lemma ProgressRuns(sys: System, s0: Dres, s: Dres, order: seq<nat>, i: nat, run: Run)
    requires sys.Sized() && sys.rules.Valid() && s0.Fits(sys) && AllOld(s0)
    requires Progress(sys, s0, s, order, i) && i < |order|
    requires order[i] < |sys.rules.targets| && IsOutdated(sys, s0, order[i]) && run.target == order[i]
    requires order[i] !in order[..i] && Ordered(sys, order, i)
    ensures var s1 := s.(ran := s.ran + [run]);
            && Progress(sys, s0, TouchTarget(s1, order[i]), order, i + 1)
            && s0.ran <= s1.ran && RanIn(s1.ran[|s0.ran|..], order) <= Due(sys, s0, order)
  {
    hide IsOutdated, Due, CalmNow, RanIn, NoneOlder, StampedRight, AllOld, Ordered, sys.rules.Valid;
    var s2 := TouchTarget(s.(ran := s.ran + [run]), order[i]);
    RanTouched(sys, s0, s, order, i, run);
    OlderTouched(sys, s0, s, s2, order, i);
    StampedTouched(sys, s0, s, s2, order, i);
    ProgressTouched(sys, s0, s, s2, order, i);
  }

  /** What else there is to progress. */
  lemma ProgressTouched(sys: System, s0: Dres, s: Dres, s2: Dres, order: seq<nat>, i: nat)
    requires sys.Sized() && s0.Fits(sys) && Progress(sys, s0, s, order, i) && i < |order| && order[i] < |s.targets|
    requires s2 == TouchTarget(s.(ran := s2.ran), order[i])
    requires s0.ran <= s2.ran && RanIn(s2.ran[|s0.ran|..], order) == Due(sys, s0, order[..i + 1])
    requires forall t | 0 <= t < |s0.targets| && t in order :: StampedRight(sys, s0, s2, order, i + 1, t)
    requires NoneOlder(sys, s2, order[..i + 1])
    ensures Progress(sys, s0, s2, order, i + 1)
  {
    hide Due, CalmNow, RanIn, NoneOlder, StampedRight;
    CalmOnly(sys, order, s, s2);
  }

  lemma RanTouched(sys: System, s0: Dres, s: Dres, order: seq<nat>, i: nat, run: Run)
    requires s0.Fits(sys) && i < |order|
    requires s0.ran <= s.ran && RanIn(s.ran[|s0.ran|..], order) == Due(sys, s0, order[..i])
    requires order[i] < |sys.rules.targets| && IsOutdated(sys, s0, order[i]) && run.target == order[i]
    ensures var ran := s.ran + [run];
            && s0.ran <= ran && RanIn(ran[|s0.ran|..], order) == Due(sys, s0, order[..i + 1])
            && RanIn(ran[|s0.ran|..], order) <= Due(sys, s0, order)
  {
    hide IsOutdated, Due, RanIn;
    DueNext(sys, s0, order, i);
    DueGrows(sys, s0, order, i + 1);
    RanOne(s.ran[|s0.ran|..], run, order);
    assert (s.ran + [run])[|s0.ran|..] == s.ran[|s0.ran|..] + [run];
  }

  lemma StampedTouched(sys: System, s0: Dres, s: Dres, s2: Dres, order: seq<nat>, i: nat)
    requires sys.Sized() && s0.Fits(sys) && Progress(sys, s0, s, order, i) && i < |order|
    requires order[i] < |sys.rules.targets| && IsOutdated(sys, s0, order[i])
    requires s2 == TouchTarget(s.(ran := s2.ran), order[i])
    ensures forall t | 0 <= t < |s0.targets| && t in order :: StampedRight(sys, s0, s2, order, i + 1, t)
  {
    hide IsOutdated, Due, CalmNow, RanIn, NoneOlder;
    InNext(order, i);
    forall t | 0 <= t < |s0.targets| && t in order ensures StampedRight(sys, s0, s2, order, i + 1, t) {
      assert StampedRight(sys, s0, s, order, i, t);
    }
  }

  lemma OlderTouched(sys: System, s0: Dres, s: Dres, s2: Dres, order: seq<nat>, i: nat)
    requires sys.Sized() && sys.rules.Valid() && s0.Fits(sys) && AllOld(s0)
    requires Progress(sys, s0, s, order, i) && i < |order|
    requires order[i] < |sys.rules.targets|
    requires order[i] !in order[..i] && Ordered(sys, order, i)
    requires s2 == TouchTarget(s.(ran := s2.ran), order[i])
    ensures NoneOlder(sys, s2, order[..i + 1])
  {
    hide IsOutdated, Due, CalmNow, RanIn, Ordered;
    var done := order[..i];
    forall k, j | 0 <= k < |done| && done[k] < |s2.targets| && 0 <= j < |sys.rules.Prereqs(done[k])|
      ensures s2.StampOf(sys.rules.Prereqs(done[k])[j]) <= s2.targets[done[k]].stamp
    {
      NeedsEach(sys.rules, done[k], j);
      assert order[k] == done[k];
      OrderedAt(sys, order, i, k, sys.rules.Node(sys.rules.Prereqs(order[k])[j]));
      assert s.StampOf(sys.rules.Prereqs(done[k])[j]) <= s.targets[done[k]].stamp;
    }
    forall j | 0 <= j < |sys.rules.Prereqs(order[i])|
      ensures s2.StampOf(sys.rules.Prereqs(order[i])[j]) <= s2.targets[order[i]].stamp
    {
      NeedsEach(sys.rules, order[i], j);
      OrderedAt(sys, order, i, i, sys.rules.Node(sys.rules.Prereqs(order[i])[j]));
      StampNow(sys, s0, s, order, i, sys.rules.Prereqs(order[i])[j]);
    }
    hide Progress;
    NoneOlderNext(sys, s2, order, i);
  }

  /** One target in its turn. */
  lemma CheckCalm(sys: System, s0: Dres, s: Dres, goal: nat, order: seq<nat>, i: nat)
    requires sys.Sized() && sys.rules.Valid() && goal < |sys.deps| && IsOrder(sys, goal, order)
    requires s0.Fits(sys) && AllOld(s0) && Progress(sys, s0, s, order, i) && s0.saved != []
    requires i < |order| && order[i] < |sys.rules.targets|
    ensures s.Fits(sys)
    ensures var (s1, st) := Check(sys, s, order[i]);
            && (st > 0 ==> Progress(sys, s0, s1, order, i + 1))
            && s0.ran <= s1.ran && RanIn(s1.ran[|s0.ran|..], order) <= Due(sys, s0, order)
  {
    hide IsOrder, Due, IsOutdated, Progress, RunActions, RanIn, Aside, CalmNow;
    var t := order[i];
    ProgressFits(sys, s0, s, order, i);
    OrderedNeeds(sys, goal, order, i);
    OrderedBefore(sys, goal, order, i);
    StaleIff(sys, s0, s, order, i, t);
    if Stale(sys, s, t) {
      var s1 := AsideActions(sys, order, s, t);
      var (s2, st) := RunActions(sys, s, t);
      CalmOnly(sys, order, s2, s1);
      ProgressAside(sys, s0, s, s1, order, i);
      ProgressRuns(sys, s0, s1, order, i, Run(t, st));
    } else {
      ProgressKeeps(sys, s0, s, order, i);
      ProgressRan(sys, s0, s, order, i);
    }
  }

  /** What a target in an order needs comes before it. */
  lemma OrderedNeeds(sys: System, goal: nat, order: seq<nat>, i: nat)
    requires goal < |sys.deps| && IsOrder(sys, goal, order) && i < |order|
    ensures order[i] !in order[..i]
    ensures forall q: nat | sys.rules.Needs(order[i], q) :: q in order[..i]
  {
    var t := order[i];
    forall q: nat | sys.rules.Needs(t, q) ensures q in order[..i] {
      assert InGraph(sys.rules, goal, t);
      var p, u :| sys.rules.Edge(goal, p, u) && (t == p || t == u);
      if t == p {
        sys.rules.ReachNext(goal, u, t);
      }
      assert sys.rules.Edge(goal, q, t);
      assert Before(order, q, t);
    }
  }

  lemma OrderedBefore(sys: System, goal: nat, order: seq<nat>, i: nat)
    requires goal < |sys.deps| && IsOrder(sys, goal, order) && i < |order|
    ensures Ordered(sys, order, i)
  {
    hide IsOrder;
    forall k, q: nat | 0 <= k <= i && sys.rules.Needs(order[k], q) ensures q in order[..k] {
      OrderedNeeds(sys, goal, order, k);
    }
  }

  // ------------------------------------------------------------------
  // What makes a target run, seen before the update
  // ------------------------------------------------------------------

  /** Something has changed since a target got its stamp: a fact variable has been
      reported, or was stamped after its last change; a variable or a target has a
      newer stamp. */
  predicate Newer(s: Dres, id: Id, stamp: int) {
    || (id.kind == FactVar && id.index < |s.factvars|
        && (id.index in s.pending || s.factvars[id.index].stamp > stamp))
    || (id.kind == DresVar && id.index < |s.dresvars| && s.dresvars[id.index].stamp > stamp)
    || (id.kind == Target && id.index < |s.targets| && s.targets[id.index].stamp > stamp)
  }

  /** A target is run unconditionally, or something it needs has changed. */
  predicate Behind(sys: System, s: Dres, t: nat)
    requires s.Fits(sys) && t < |s.targets|
  {
    var prereqs := sys.rules.targets[t].prereqs;
    prereqs.None? || exists i | 0 <= i < |prereqs.value| :: Newer(s, prereqs.value[i], s.targets[t].stamp)
  }

  /** A target is behind, or needs one that is, directly or not. */
  ghost predicate MustRun(sys: System, s: Dres, t: nat)
    requires s.Fits(sys)
  {
    exists path :: BehindEnd(sys, s, path) && path[0] == t
  }

  ghost predicate BehindEnd(sys: System, s: Dres, path: seq<nat>)
    requires s.Fits(sys)
  {
    sys.rules.Chain(path) && path[|path| - 1] < |s.targets| && Behind(sys, s, path[|path| - 1])
  }

  lemma {:induction false} Unreported(v: seq<Stamps>, changes: seq<nat>, txid: int, now: int, k: nat)
    requires k < |v| && k !in changes
    ensures TouchVars(v, changes, txid, now)[k] == v[k]
  {
    if changes != [] {
      Unreported(v, changes[..|changes| - 1], txid, now, k);
    }
  }

  lemma NewerOpened(sys: System, s: Dres, id: Id, stamp: int)
    requires sys.Sized() && s.Fits(sys) && Settled(s) && sys.rules.Known(id) && stamp <= s.stamp
    ensures Newer(s, id, stamp) <==> Opened(s).StampOf(id) > stamp
  {
    OpenedAnew(s);
    if id.kind == FactVar && id.index !in s.pending {
      Unreported(s.factvars, s.pending, s.txid + 1, s.stamp + 1, id.index);
    }
  }

  lemma BehindOpened(sys: System, s: Dres, t: nat)
    requires sys.Sized() && sys.rules.Valid() && s.Fits(sys) && Settled(s) && t < |s.targets|
    ensures Opened(s).Fits(sys) && (Behind(sys, s, t) <==> Stale(sys, Opened(s), t))
  {
    hide Newer, Opened;
    OpenedOld(sys, s);
    var prereqs := sys.rules.targets[t].prereqs;
    if prereqs.Some? {
      forall i | 0 <= i < |prereqs.value|
        ensures Newer(s, prereqs.value[i], s.targets[t].stamp)
           <==> Opened(s).StampOf(prereqs.value[i]) > s.targets[t].stamp
      {
        NeedsEach(sys.rules, t, i);
        NewerOpened(sys, s, prereqs.value[i], s.targets[t].stamp);
      }
    }
  }

  /** The targets that turn out outdated are the ones that had to be run. */
  lemma MustRunOpened(sys: System, s: Dres, t: nat)
    requires sys.Sized() && sys.rules.Valid() && s.Fits(sys) && Settled(s)
    ensures Opened(s).Fits(sys) && (MustRun(sys, s, t) <==> IsOutdated(sys, Opened(s), t))
  {
    hide Behind, Stale, Opened, sys.rules.Needs;
    OpenedOld(sys, s);
    if path :| BehindEnd(sys, s, path) && path[0] == t {
      BehindOpened(sys, s, path[|path| - 1]);
      assert StaleEnd(sys, Opened(s), path, path[|path| - 1]);
    }
    if path, u :| StaleEnd(sys, Opened(s), path, u) && path[0] == t {
      BehindOpened(sys, s, u);
      assert BehindEnd(sys, s, path);
    }
  }

  // ------------------------------------------------------------------
  // A whole update
  // ------------------------------------------------------------------

  lemma OpenedOld(sys: System, s: Dres)
    requires sys.Sized() && s.Fits(sys) && Settled(s)
    ensures Opened(s).Fits(sys) && AllOld(Opened(s)) && Opened(s).ran == s.ran
    ensures Opened(s).targets == s.targets && Opened(s).dresvars == s.dresvars && Opened(s).script == s.script
    ensures Opened(s).stamp == s.stamp + 1 && Opened(s).saved == s.saved + [s.facts] && Opened(s).active
    ensures Opened(s).pending == []
    ensures s.pending == [] ==> Opened(s).factvars == s.factvars
  {
    TouchVarsRestamp(s.factvars, s.pending, s.txid + 1, s.stamp + 1);
  }

  lemma CalmOpened(sys: System, nodes: seq<nat>, s: Dres)
    requires sys.Sized() && Calm(sys, nodes, s.script) && s.pending == []
    ensures CalmNow(sys, nodes, s)
  {
  }

  /** The state after a successful update, seen from the state it opened with. */
  ghost predicate UpToDate(sys: System, s0: Dres, s1: Dres, goal: nat, order: seq<nat>)
    requires s0.Fits(sys) && goal < |s0.targets|
  {
    && s1.Fits(sys) && s0.ran <= s1.ran && RanIn(s1.ran[|s0.ran|..], order) == Due(sys, s0, order)
    && NoneOlder(sys, s1, order) && s1.targets[goal].stamp == s1.stamp >= s0.stamp
    && forall t | 0 <= t < |s0.targets| && t in order && t != goal ::
         if IsOutdated(sys, s0, t) then s0.stamp <= s1.targets[t].stamp <= s1.stamp
         else s1.targets[t].stamp == s0.targets[t].stamp
  }

  /** An update of a goal with prerequisites, whose actions are calm, runs outdated
      targets only, in the order of the sort, and all of them if it succeeds; the
      ones it has run and the goal are stamped with new stamps, and no other target
      of the graph is. */
  lemma RunsOutdated(sys: System, s: Dres, goal: Option<string>, args: Option<seq<LocalArg>>, t: nat, order: seq<nat>)
    requires Linked(sys) && s.Fits(sys) && Settled(s) && Calm(sys, order, s.script)
    requires sys.Goal(goal) == Some(t) && sys.rules.targets[t].prereqs.Some? && IsOrder(sys, t, order)
    requires BindError(sys, args) == 0
    ensures Opened(s).Fits(sys)
    ensures var (s1, status) := UpdateGoal(sys, s, goal, args);
            && s.ran <= s1.ran && RanIn(s1.ran[|s.ran|..], order) <= Due(sys, Opened(s), order)
            && (status > 0 ==> UpToDate(sys, Opened(s), s1, t, order))
  {
    hide CheckAll, Opened, IsOrder, Due, IsOutdated, Linked, Progress, RanIn, UpToDate, Calm;
    LinkedParts(sys);
    OpenedOld(sys, s);
    var s0 := Opened(s);
    CalmOpened(sys, order, s0);
    ProgressStarts(sys, s0, order);
    CheckAllCalm(sys, s0, s0, t, order, 0, 0);
    var (s1, status) := CheckAll(sys, s0, t, 0, 0);
    if status > 0 {
      Finishes(sys, s0, s1, t, order);
    }
  }

  lemma LinkedParts(sys: System)
    requires Linked(sys)
    ensures sys.Sized() && sys.rules.Valid() && Listed(sys)
  {
    LinkedListed(sys);
  }

  lemma ProgressStarts(sys: System, s0: Dres, order: seq<nat>)
    requires sys.Sized() && s0.Fits(sys) && s0.active && CalmNow(sys, order, s0)
    ensures Progress(sys, s0, s0, order, 0)
  {
    hide CalmNow;
    assert order[..0] == [] && s0.ran[|s0.ran|..] == [];
  }

  /** After the last dependency the goal gets its stamp, which nothing needs. */
  lemma Finishes(sys: System, s0: Dres, s: Dres, goal: nat, order: seq<nat>)
    requires sys.Sized() && sys.rules.Valid() && goal < |sys.deps| && IsOrder(sys, goal, order)
    requires s0.Fits(sys) && AllOld(s0) && Progress(sys, s0, s, order, |order|)
    ensures s.Fits(sys) && s.saved == s0.saved
    ensures s.saved != [] ==> UpToDate(sys, s0, Commit(TouchTarget(s, goal)), goal, order)
  {
    hide IsOrder, Due, IsOutdated, CalmNow, RanIn;
    assert order[..|order|] == order;
    if s.saved != [] {
      var s1 := Commit(TouchTarget(s, goal));
      forall i, j | 0 <= i < |order| && order[i] < |s1.targets| && 0 <= j < |sys.rules.Prereqs(order[i])|
        ensures s1.StampOf(sys.rules.Prereqs(order[i])[j]) <= s1.targets[order[i]].stamp
      {
        var id := sys.rules.Prereqs(order[i])[j];
        NeedsEach(sys.rules, order[i], j);
        OrderedNeeds(sys, goal, order, i);
        GoalNeededByNone(sys, goal, order, i, sys.rules.Node(id));
        StampNow(sys, s0, s, order, |order|, id);
        assert s.StampOf(id) <= s.targets[order[i]].stamp;
      }
      forall t | 0 <= t < |s0.targets| && t in order && t != goal
        ensures StampedRight(sys, s0, s, order, |order|, t) && s1.targets[t] == s.targets[t]
      {
      }
    }
  }

  lemma GoalNeededByNone(sys: System, goal: nat, order: seq<nat>, i: nat, q: nat)
    requires sys.Sized() && goal < |sys.deps| && IsOrder(sys, goal, order)
    requires i < |order| && sys.rules.Needs(order[i], q)
    ensures q != goal
  {
    GoalLast(sys.rules, goal, order);
    OrderedNeeds(sys, goal, order, i);
    var k :| 0 <= k < i && order[k] == q;
    assert order[k] != order[|order| - 1];
  }

  /** The theorem for one update: on success, every target in the graph of the goal
      that is run unconditionally, or that something has changed for that it needs,
      directly or not, has been run once, after what it needs, and no other target of
      the graph; and now none of them is older than its prerequisites.  The actions may
      resolve goals that have nothing to do with the graph. */
  lemma BringsUpToDate(sys: System, s: Dres, goal: Option<string>, args: Option<seq<LocalArg>>, t: nat, order: seq<nat>)
    requires Linked(sys) && s.Fits(sys) && Settled(s) && Calm(sys, order, s.script)
    requires sys.Goal(goal) == Some(t) && sys.rules.targets[t].prereqs.Some? && IsOrder(sys, t, order)
    requires BindError(sys, args) == 0 && UpdateGoal(sys, s, goal, args).1 > 0
    ensures var s1 := UpdateGoal(sys, s, goal, args).0;
            && s.ran <= s1.ran && s1.Fits(sys)
            && var ran := RanIn(s1.ran[|s.ran|..], order);
            && Distinct(ran)
            && (forall v: nat :: v in ran <==> InGraph(sys.rules, t, v) && v < |s.targets| && MustRun(sys, s, v))
            && (forall q: nat, v: nat | sys.rules.Edge(t, q, v) && q in ran && v in ran :: Before(ran, q, v))
            && s1.targets[t].stamp == s1.stamp
            && NoneOlder(sys, s1, order)
  {
    hide UpdateGoal, Opened, IsOutdated, Due, Stale, Before, InGraph, sys.rules.Edge, Linked, NoneOlder, StandsFor,
         RanIn, Calm, MustRun;
    LinkedParts(sys);
    RunsOutdated(sys, s, goal, args, t, order);
    OpenedOld(sys, s);
    forall v: nat ensures MustRun(sys, s, v) <==> IsOutdated(sys, Opened(s), v) {
      MustRunOpened(sys, s, v);
    }
    var s0, s1 := Opened(s), UpdateGoal(sys, s, goal, args).0;
    DueHas(sys, s0, order);
    forall q: nat, v: nat | sys.rules.Edge(t, q, v) && q in Due(sys, s0, order) && v in Due(sys, s0, order)
      ensures Before(Due(sys, s0, order), q, v)
    {
      DueOrder(sys, s0, order, q, v);
    }
  }

  /** A reported change of a fact variable runs every target in the graph that has it
      among its prerequisites, and the goal's graph knows no other change: a target that
      needs fact variables only is run exactly if one of them has been reported, or was
      stamped after the target. */
  lemma ChangesRun(sys: System, s: Dres, goal: Option<string>, args: Option<seq<LocalArg>>, t: nat, order: seq<nat>,
                   v: nat)
    requires Linked(sys) && s.Fits(sys) && Settled(s) && Calm(sys, order, s.script)
    requires sys.Goal(goal) == Some(t) && sys.rules.targets[t].prereqs.Some? && IsOrder(sys, t, order)
    requires BindError(sys, args) == 0 && UpdateGoal(sys, s, goal, args).1 > 0
    requires InGraph(sys.rules, t, v) && v < |s.targets| && sys.rules.targets[v].prereqs.Some?
    ensures var s1 := UpdateGoal(sys, s, goal, args).0;
            var ids := sys.rules.targets[v].prereqs.value;
            && s.ran <= s1.ran
            && var ran := RanIn(s1.ran[|s.ran|..], order);
            && (forall i | 0 <= i < |ids| && ids[i].kind == FactVar && ids[i].index in s.pending :: v in ran)
            && (forall i | 0 <= i < |ids| && ids[i].kind == FactVar
                           && s.factvars[ids[i].index].stamp > s.targets[v].stamp :: v in ran)
            && ((forall i | 0 <= i < |ids| :: ids[i].kind == FactVar && ids[i].index !in s.pending
                                              && s.factvars[ids[i].index].stamp <= s.targets[v].stamp) ==>
                  v !in ran)
  {
    hide UpdateGoal, MustRun, Linked, NoneOlder, StandsFor, RanIn, Calm, Settled, InGraph, sys.rules.Edge, Before;
    BringsUpToDate(sys, s, goal, args, t, order);
    LinkedParts(sys);
    var ids := sys.rules.targets[v].prereqs.value;
    forall i | 0 <= i < |ids| ensures sys.rules.Known(ids[i]) {
      NeedsEach(sys.rules, v, i);
    }
    if i :| 0 <= i < |ids| && Newer(s, ids[i], s.targets[v].stamp) {
      assert BehindEnd(sys, s, [v]);
      MustRunBy(sys, s, [v]);
    }
    if forall i | 0 <= i < |ids| :: ids[i].kind == FactVar && !Newer(s, ids[i], s.targets[v].stamp) {
      NotBehind(sys, s, v);
    }
  }

  lemma MustRunBy(sys: System, s: Dres, path: seq<nat>)
    requires s.Fits(sys) && BehindEnd(sys, s, path)
    ensures MustRun(sys, s, path[0])
  {
  }

  /** A target that needs unchanged fact variables only. */
  lemma NotBehind(sys: System, s: Dres, v: nat)
    requires sys.Sized() && sys.rules.Valid() && s.Fits(sys) && v < |s.targets| && sys.rules.targets[v].prereqs.Some?
    requires forall i | 0 <= i < |sys.rules.targets[v].prereqs.value| ::
               var id := sys.rules.targets[v].prereqs.value[i];
               id.kind == FactVar && !Newer(s, id, s.targets[v].stamp)
    ensures !MustRun(sys, s, v)
  {
    if MustRun(sys, s, v) {
      MustRunBecause(sys, s, v);
    }
  }

  lemma MustRunBecause(sys: System, s: Dres, t: nat)
    requires s.Fits(sys) && sys.rules.Valid() && t < |s.targets| && MustRun(sys, s, t)
    ensures Behind(sys, s, t) || exists q: nat :: sys.rules.Needs(t, q) && q < |s.targets|
  {
    hide Behind;
    var path :| BehindEnd(sys, s, path) && path[0] == t;
    if |path| > 1 {
      assert sys.rules.Needs(path[0], path[1]);
      if |path| > 2 {
        assert sys.rules.Needs(path[1], path[2]);
        sys.rules.NeedsInRange(path[1], path[2]);
      }
    }
  }

  /** A goal without prerequisites is run, whatever the stamps say, and once unless its
      actions resolve it again. */
  lemma RunsGoal(sys: System, s: Dres, goal: Option<string>, args: Option<seq<LocalArg>>, t: nat)
    requires Linked(sys) && s.Fits(sys) && Settled(s) && Calm(sys, [t], s.script)
    requires sys.Goal(goal) == Some(t) && sys.rules.targets[t].prereqs.None? && BindError(sys, args) == 0
    ensures var (s1, status) := UpdateGoal(sys, s, goal, args);
            && s.ran <= s1.ran && RanIn(s1.ran[|s.ran|..], [t]) == [t]
            && (status > 0 ==> s1.Fits(sys) && s1.targets[t].stamp == s1.stamp > s.stamp)
  {
    hide RunActions, Opened, Linked, RanIn, Calm, CalmNow;
    LinkedParts(sys);
    OpenedOld(sys, s);
    var s0 := Opened(s);
    CalmOpened(sys, [t], s0);
    var s1 := AsideActions(sys, [t], s0, t);
    var (s2, status) := RunActions(sys, s0, t);
    RanOne(s1.ran[|s.ran|..], Run(t, status), [t]);
    assert s2.ran[|s.ran|..] == s1.ran[|s.ran|..] + [Run(t, status)];
  }

  lemma RanOne(ran: seq<Run>, run: Run, nodes: seq<nat>)
    requires run.target in nodes
    ensures RanIn(ran + [run], nodes) == RanIn(ran, nodes) + [run.target]
  {
    assert (ran + [run])[..|ran|] == ran;
  }

  lemma {:induction false} DueOrder(sys: System, s: Dres, order: seq<nat>, q: nat, v: nat)
    requires s.Fits(sys) && Distinct(order) && Before(order, q, v) && q in Due(sys, s, order) && v in Due(sys, s, order)
    ensures Before(Due(sys, s, order), q, v)
  {
    hide IsOutdated;
    var init, last := order[..|order| - 1], order[|order| - 1];
    var due, rest := Due(sys, s, order), Due(sys, s, init);
    DueHas(sys, s, init);
    var i, j :| 0 <= i < j < |order| && order[i] == q && order[j] == v;
    assert init[i] == q && q in init;
    if j == |init| {
      var k :| 0 <= k < |rest| && rest[k] == q;
      assert due == rest + [v];
      assert due[k] == q && due[|rest|] == v;
    } else {
      assert init[j] == v && v in init;
      DueOrder(sys, s, init, q, v);
      var a, b :| 0 <= a < b < |rest| && rest[a] == q && rest[b] == v;
      assert due[a] == q && due[b] == v;
    }
  }

  // ------------------------------------------------------------------
  // Quiescence
  // ------------------------------------------------------------------

  /** Every target of the order has prerequisites. */
  predicate NoneUnconditional(sys: System, order: seq<nat>) {
    forall i | 0 <= i < |order| && order[i] < |sys.rules.targets| :: sys.rules.targets[order[i]].prereqs.Some?
  }

  lemma {:induction false} CheckAllIdle(sys: System, s: Dres, goal: nat, order: seq<nat>, i: nat, status: int)
    requires sys.Sized() && goal < |sys.deps| && IsOrder(sys, goal, order) && i <= |order|
    requires s.Fits(sys) && s.active && s.saved != []
    requires forall k | i <= k < |order| && order[k] < |s.targets| :: !Stale(sys, s, order[k])
    ensures CheckAll(sys, s, goal, i, status) == (s, if TargetsFrom(sys.deps[goal], i) != [] then 1 else status)
    decreases |order| - i
  {
    hide IsOrder, Stale;
    if i == |order| {
      EndOf(sys, goal, order);
    } else {
      EntryOf(sys, goal, order, i);
      if order[i] >= |s.targets| {
        CheckAllIdle(sys, s, goal, order, i + 1, status);
      } else {
        CheckAllIdle(sys, s, goal, order, i + 1, 1);
      }
    }
  }

  lemma StaysFresh(sys: System, s: Dres, s0: Dres, order: seq<nat>, i: nat)
    requires s.Fits(sys) && NoneOlder(sys, s, order) && NoneUnconditional(sys, order)
    requires i < |order| && order[i] < |s.targets|
    requires s0.targets == s.targets && s0.factvars == s.factvars && s0.dresvars == s.dresvars
    ensures s0.Fits(sys) && !Stale(sys, s0, order[i])
  {
    var ids := sys.rules.targets[order[i]].prereqs.value;
    assert ids == sys.rules.Prereqs(order[i]);
    forall j | 0 <= j < |ids| ensures s0.StampOf(ids[j]) <= s0.targets[order[i]].stamp {
      assert s.StampOf(ids[j]) == s0.StampOf(ids[j]);
    }
  }

  /** If no target of the order is older than its prerequisites, none is without
      prerequisites, and no change is reported, then an update succeeds without
      running any action: it changes nothing but the stamp of the goal. */
  lemma Idle(sys: System, s: Dres, goal: Option<string>, args: Option<seq<LocalArg>>, t: nat, order: seq<nat>)
    requires Linked(sys) && s.Fits(sys) && Settled(s) && s.pending == []
    requires sys.Goal(goal) == Some(t) && sys.rules.targets[t].prereqs.Some? && IsOrder(sys, t, order)
    requires NoneUnconditional(sys, order) && NoneOlder(sys, s, order) && BindError(sys, args) == 0
    ensures var (s1, status) := UpdateGoal(sys, s, goal, args);
            && status > 0 && s1.ran == s.ran && s1.script == s.script && s1.facts == s.facts
            && s1.factvars == s.factvars && s1.dresvars == s.dresvars
            && s1.targets == s.targets[t := s.targets[t].Touch(s.txid + 1, s.stamp + 1)]
  {
    hide IsOrder, Stale, NoneOlder, NoneUnconditional, Linked, Listed;
    LinkedParts(sys);
    var s0 := Opened(s);
    assert s0.factvars == s.factvars;
    forall k | 0 <= k < |order| && order[k] < |s0.targets| ensures !Stale(sys, s0, order[k]) {
      StaysFresh(sys, s, s0, order, k);
    }
    CheckAllIdle(sys, s0, t, order, 0, 0);
    GoalListed(sys, t);
  }

  lemma GoalListed(sys: System, t: nat)
    requires sys.Sized() && Listed(sys) && t < |sys.deps| && sys.rules.targets[t].prereqs.Some?
    ensures TargetsFrom(sys.deps[t], 0) != []
  {
  }

  /** Quiescence: once a goal has been brought up to date by calm actions, asking for
      it again runs nothing, whatever the actions would do,
      as long as no change is reported in between. */
  lemma Quiescent(sys: System, s: Dres, goal: Option<string>, args: Option<seq<LocalArg>>, t: nat, order: seq<nat>,
                  c: Call)
    requires Linked(sys) && s.Fits(sys) && Settled(s) && Calm(sys, order, s.script)
    requires sys.Goal(goal) == Some(t) && sys.rules.targets[t].prereqs.Some? && IsOrder(sys, t, order)
    requires BindError(sys, args) == 0 && UpdateGoal(sys, s, goal, args).1 > 0
    requires UpdateGoal(sys, s, goal, args).0.pending == [] && c.changed == []
    requires NoneUnconditional(sys, order) && BindError(sys, c.args) == 0
    ensures var s1 := UpdateGoal(sys, s, goal, args).0;
            && s1.Fits(sys) && !s1.active
            && var (s2, status) := UpdateGoal(sys, Arrive(s1, c), goal, c.args);
               status > 0 && s2.ran == s1.ran && s2.facts == c.facts && s2.script == c.script
  {
    hide UpdateGoal, IsOrder, NoneOlder, NoneUnconditional, Settled, Linked, Calm;
    LinkedParts(sys);
    NotActive(s);
    BringsUpToDate(sys, s, goal, args, t, order);
    SettledAfter(sys, s, goal, args);
    var s1 := UpdateGoal(sys, s, goal, args).0;
    SettledArrives(s1, c);
    OlderArrives(sys, s1, c, order);
    Idle(sys, Arrive(s1, c), goal, c.args, t, order);
  }

  lemma SettledArrives(s: Dres, c: Call)
    requires Settled(s)
    ensures Settled(Arrive(s, c)) && !s.active
  {
  }

  lemma OlderArrives(sys: System, s: Dres, c: Call, order: seq<nat>)
    requires s.Fits(sys) && NoneOlder(sys, s, order)
    ensures NoneOlder(sys, Arrive(s, c), order)
  {
    forall i, j | 0 <= i < |order| && order[i] < |s.targets| && 0 <= j < |sys.rules.Prereqs(order[i])|
      ensures Arrive(s, c).StampOf(sys.rules.Prereqs(order[i])[j]) <= s.targets[order[i]].stamp
    {
      assert s.StampOf(sys.rules.Prereqs(order[i])[j]) <= s.targets[order[i]].stamp;
    }
  }
}
