/** The topological sort of a dependency graph (src/graph.c:288-543): Kahn's
    algorithm with a circular queue, counters of incoming edges, and a flag on
    the identifiers of edges already taken. */
module Sort {
  import opened Words
  import opened Ids
  import opened Graph

  type Edges = set<(nat, nat)>

  // ------------------------------------------------------------------
  // Sets and sequences of nodes
  // ------------------------------------------------------------------

  ghost predicate Distinct(s: seq<nat>) {
    forall i, j | 0 <= i < j < |s| :: s[i] != s[j]
  }

  ghost function Elements(s: seq<nat>): set<nat> {
    set x | x in s
  }

  ghost function Range(n: nat): (s: set<nat>)
    ensures |s| == n
    ensures forall v: nat :: v in s <==> v < n
  {
    if n == 0 then {} else Range(n - 1) + {n - 1}
  }

  lemma {:induction false} DistinctSize(s: seq<nat>)
    requires Distinct(s)
    ensures |Elements(s)| == |s|
  {
    if s == [] {
      assert Elements(s) == {};
    } else {
      var init, last := s[..|s| - 1], s[|s| - 1];
      DistinctSize(init);
      assert Elements(s) == Elements(init) + {last};
      assert last !in Elements(init);
    }
  }

  lemma SubsetSize(a: set<nat>, b: set<nat>)
    requires a <= b
    ensures |a| <= |b|
  {
    assert b == a + (b - a);
  }

  /** A list of distinct nodes other than `t` is shorter than the number of nodes. */
  lemma FewerThan(s: seq<nat>, n: nat, t: nat)
    requires Distinct(s) && t < n && t !in s && forall v | v in s :: v < n
    ensures |s| < n
  {
    DistinctSize(s);
    assert Elements(s) <= Range(n) - {t};
    SubsetSize(Elements(s), Range(n) - {t});
  }

  lemma NoMoreThan(s: seq<nat>, n: nat)
    requires Distinct(s) && forall v | v in s :: v < n
    ensures |s| <= n
  {
    DistinctSize(s);
    SubsetSize(Elements(s), Range(n));
  }

  /** The edges into a node and out of a node. */
  ghost function Into(edges: Edges, v: nat): Edges {
    set e | e in edges && e.1 == v
  }

  ghost function OutOf(edges: Edges, v: nat): Edges {
    set e | e in edges && e.0 == v
  }

  lemma IntoHas(edges: Edges, p: nat, t: nat)
    ensures (p, t) in edges ==> Into(edges, t) != {}
  {
    if (p, t) in edges {
      assert (p, t) in Into(edges, t);
    }
  }

  lemma IntoWithout(edges: Edges, p: nat, t: nat)
    requires (p, t) in edges
    ensures forall v: nat :: |Into(edges - {(p, t)}, v)| == |Into(edges, v)| - if v == t then 1 else 0
  {
    forall v: nat ensures |Into(edges - {(p, t)}, v)| == |Into(edges, v)| - if v == t then 1 else 0 {
      if v == t {
        assert Into(edges, v) == Into(edges - {(p, t)}, v) + {(p, t)};
      } else {
        assert Into(edges, v) == Into(edges - {(p, t)}, v);
      }
    }
  }

  lemma IntoWith(edges: Edges, p: nat, t: nat)
    requires (p, t) !in edges
    ensures forall v: nat :: |Into(edges + {(p, t)}, v)| == |Into(edges, v)| + if v == t then 1 else 0
  {
    assert edges + {(p, t)} - {(p, t)} == edges;
    IntoWithout(edges + {(p, t)}, p, t);
  }

  // ------------------------------------------------------------------
  // Cycles
  // ------------------------------------------------------------------

  /** A path against the direction of the edges. */
  ghost predicate Back(edges: Edges, path: seq<nat>) {
    path != [] && forall i | 0 <= i < |path| - 1 :: (path[i + 1], path[i]) in edges
  }

  ghost predicate HasCycle(edges: Edges) {
    exists path :: Back(edges, path) && |path| > 1 && path[0] == path[|path| - 1]
  }

  ghost predicate HasPred(edges: Edges, left: set<nat>, t: nat) {
    exists e | e in edges :: e.1 == t && e.0 in left
  }

  /** Walks back from a node, always to a node that has an edge into it. */
  lemma {:induction false} WalkBack(edges: Edges, left: set<nat>, v: nat, n: nat) returns (path: seq<nat>)
    requires v in left
    requires forall t | t in left :: HasPred(edges, left, t)
    ensures Back(edges, path) && |path| == n + 1 && forall i | 0 <= i < |path| :: path[i] in left
  {
    if n == 0 {
      return [v];
    }
    var init := WalkBack(edges, left, v, n - 1);
    assert HasPred(edges, left, init[n - 1]);
    var e :| e in edges && e.1 == init[n - 1] && e.0 in left;
    path := init + [e.0];
    forall i | 0 <= i < |path| - 1 ensures (path[i + 1], path[i]) in edges {
      if i < n - 1 {
        assert (init[i + 1], init[i]) in edges;
      }
    }
  }

  lemma {:induction false} Repeats(path: seq<nat>, left: set<nat>) returns (i: nat, j: nat)
    requires |path| > |left| && forall k | 0 <= k < |path| :: path[k] in left
    ensures i < j < |path| && path[i] == path[j]
  {
    if Distinct(path) {
      DistinctSize(path);
      SubsetSize(Elements(path), left);
      assert false;
    } else {
      i, j :| 0 <= i < j < |path| && path[i] == path[j];
    }
  }

  /** If every node of a nonempty set has an edge from a node of the set, there is
      a cycle. */
  lemma CycleAmong(edges: Edges, left: set<nat>)
    requires left != {}
    requires forall t | t in left :: HasPred(edges, left, t)
    ensures HasCycle(edges)
  {
    var v :| v in left;
    var path := WalkBack(edges, left, v, |left|);
    var i, j := Repeats(path, left);
    var loop := path[i..j + 1];
    assert Back(edges, loop) by {
      forall k | 0 <= k < |loop| - 1 ensures (loop[k + 1], loop[k]) in edges {
        assert (path[i + k + 1], path[i + k]) in edges;
      }
    }
    assert loop[0] == loop[|loop| - 1];
  }

  /** Every prerequisite comes before every target that needs it. */
  ghost predicate Ordered(order: seq<nat>, edges: Edges) {
    forall j, p | 0 <= j < |order| && (p, order[j]) in edges :: p in order[..j]
  }

  lemma {:induction false} Earlier(order: seq<nat>, edges: Edges, path: seq<nat>, j: nat) returns (i: nat)
    requires Ordered(order, edges) && Distinct(order) && Back(edges, path) && |path| > 1
    requires j < |order| && order[j] == path[0]
    ensures i < j && order[i] == path[|path| - 1]
    decreases |path|
  {
    assert (path[1], path[0]) in edges;
    assert path[1] in order[..j];
    i :| 0 <= i < j && order[i] == path[1];
    if |path| > 2 {
      assert Back(edges, path[1..]) by {
        forall k | 0 <= k < |path[1..]| - 1 ensures (path[1..][k + 1], path[1..][k]) in edges {
          assert (path[k + 2], path[k + 1]) in edges;
        }
      }
      i := Earlier(order, edges, path[1..], i);
    }
  }

  /** What has been ordered is on no cycle. */
  lemma OrderedHasNoCycle(order: seq<nat>, edges: Edges)
    requires Ordered(order, edges) && Distinct(order)
    requires forall e | e in edges :: e.1 in order
    ensures !HasCycle(edges)
  {
    if HasCycle(edges) {
      var path :| Back(edges, path) && |path| > 1 && path[0] == path[|path| - 1];
      assert (path[1], path[0]) in edges;
      var j :| 0 <= j < |order| && order[j] == path[0];
      var i := Earlier(order, edges, path, j);
      assert false;
    }
  }

  // ------------------------------------------------------------------
  // The algorithm
  // ------------------------------------------------------------------

  ghost function Nodes(r: Rules, ids: seq<Id>): (nodes: seq<nat>)
    ensures |nodes| == |ids| && forall i | 0 <= i < |ids| :: nodes[i] == r.Node(ids[i])
  {
    seq(|ids|, i requires 0 <= i < |ids| => r.Node(ids[i]))
  }

  ghost predicate AllKnown(r: Rules, ids: seq<Id>) {
    forall i | 0 <= i < |ids| :: r.Known(ids[i])
  }

  /** E counts the incoming edges left. */
  ghost predicate Counts(counts: seq<int>, live: Edges) {
    forall v | 0 <= v < |counts| :: counts[v] == |Into(live, v)|
  }

  /** The state of the algorithm once the first `k` nodes of `order` have been
      popped: `live` are the edges left. */
  ghost predicate Kahn(n: nat, edges: Edges, order: seq<nat>, k: nat, live: Edges) {
    && k <= |order| && Distinct(order) && Ordered(order, edges) && live <= edges
    && (forall v | v in order :: v < n && Endpoint(edges, v))
    && (forall v: nat | Endpoint(edges, v) :: v in order <==> Into(live, v) == {})
    && (forall e | e in edges && e !in live :: e.0 in order[..k])
  }

  /** No edge out of a node popped is left. */
  ghost predicate Popped(order: seq<nat>, k: nat, live: Edges)
    requires k <= |order|
  {
    forall e | e in live :: e.0 !in order[..k]
  }

  /** Taking an edge out of a popped node; its target joins the queue if that was
      the last edge into it. */
  lemma TakeEdge(n: nat, edges: Edges, order: seq<nat>, k: nat, live: Edges, v: nat, t: nat)
    requires Kahn(n, edges, order, k, live) && (v, t) in live && v in order[..k] && t < n
    ensures |Into(live, t)| > 0
    ensures Kahn(n, edges, if |Into(live, t)| == 1 then order + [t] else order, k, live - {(v, t)})
    ensures |Into(live, t)| == 1 ==> |order| < n
  {
    hide Ordered, HasCycle;
    var less := live - {(v, t)};
    IntoWithout(live, v, t);
    assert (v, t) in Into(live, t);
    assert Endpoint(edges, t);
    assert t !in order;
    forall u: nat | u != t ensures Into(less, u) == Into(live, u) {
    }
    assert |Into(live, t)| == 1 <==> Into(less, t) == {};
    if |Into(live, t)| == 1 {
      OrderedMore(edges, order, k, less, t);
      FewerThan(order, n, t);
      assert (order + [t])[..k] == order[..k];
    }
  }

  lemma OrderedMore(edges: Edges, order: seq<nat>, k: nat, less: Edges, t: nat)
    requires Ordered(order, edges) && k <= |order|
    requires forall e | e in edges && e !in less :: e.0 in order[..k]
    requires Into(less, t) == {}
    ensures Ordered(order + [t], edges)
  {
    var more := order + [t];
    forall j, p | 0 <= j < |more| && (p, more[j]) in edges ensures p in more[..j] {
      if j < |order| {
        assert more[..j] == order[..j] && more[j] == order[j];
      } else {
        IntoHas(less, p, t);
        assert (p, t) in edges && (p, t).0 in order[..k];
        assert more[..j] == order;
      }
    }
  }

  /** The end of the algorithm: no edge is left exactly if there is no cycle. */
  lemma Exhausted(n: nat, edges: Edges, order: seq<nat>, live: Edges)
    requires Kahn(n, edges, order, |order|, live) && Popped(order, |order|, live)
    requires forall e | e in edges :: e.0 < n && e.1 < n
    ensures live == {} <==> !HasCycle(edges)
    ensures live == {} ==> forall v: nat | Endpoint(edges, v) :: v in order
  {
    assert order[..|order|] == order;
    if live == {} {
      forall v: nat | Endpoint(edges, v) ensures v in order {
        assert Into(live, v) == {};
      }
      forall e | e in edges ensures e.1 in order {
        assert Endpoint(edges, e.1);
      }
      OrderedHasNoCycle(order, edges);
    } else {
      var left := set v | v in Range(n) && v !in order && Endpoint(edges, v);
      var e :| e in live;
      InLeft(n, edges, order, live, e, left);
      forall t | t in left ensures HasPred(edges, left, t) {
        assert Into(live, t) != {};
        var d :| d in Into(live, t);
        InLeft(n, edges, order, live, d, left);
      }
      CycleAmong(edges, left);
    }
  }

  lemma InLeft(n: nat, edges: Edges, order: seq<nat>, live: Edges, e: (nat, nat), left: set<nat>)
    requires e in live && live <= edges && Popped(order, |order|, live) && e.0 < n
    requires forall v | v in Range(n) && v !in order && Endpoint(edges, v) :: v in left
    ensures e.0 in left
  {
    assert order[..|order|] == order;
    assert Endpoint(edges, e.0);
  }

  /** The slot after `i` items have gone through a ring of `n` slots, not more than
      fit. */
  ghost function Around(i: nat, n: nat): nat {
    if i == n then 0 else i
  }

  lemma AroundNext(i: nat, n: nat)
    requires i < n
    ensures (i + 1) % n == Around(i + 1, n)
  {
    if i + 1 < n {
      assert (i + 1) / n == 0;
    }
  }

  /** Q and L: arrays with a head and a tail that go round after `n` items.  The
      items pushed are `pushed`; the first `popped` of them have been popped. */
  class Ring {
    const items: array<Option<Id>>
    const n: nat
    var head: nat
    var tail: nat
    ghost var pushed: seq<Id>
    ghost var popped: nat

    ghost predicate Valid()
      reads this, items
    {
      && 0 < n <= items.Length && popped <= |pushed| <= n
      && head == Around(popped, n) && tail == Around(|pushed|, n)
      && forall j | 0 <= j < items.Length :: items[j] == if j < |pushed| then Some(pushed[j]) else None
    }

    constructor (size: nat, modulus: nat)
      requires 0 < modulus <= size
      ensures Valid() && n == modulus && items.Length == size && pushed == [] && popped == 0 && fresh(items)
    {
      items := new Option<Id>[size](i => None);
      n, head, tail, pushed, popped := modulus, 0, 0, [], 0;
    }

    method Push(id: Id)
      requires Valid() && |pushed| < n
      modifies this`tail, this`pushed, items
      ensures Valid() && pushed == old(pushed) + [id]
    {
      AroundNext(tail, n);
      items[tail] := Some(id);
      tail := (tail + 1) % n;
      pushed := pushed + [id];
    }

    /** Heads and tails that agree mean an empty queue; a full one that nothing has
        been popped from would look the same. */
    method Pop() returns (id: Option<Id>)
      requires Valid() && (popped == 0 ==> |pushed| < n)
      modifies this`head, this`popped
      ensures Valid()
      ensures old(popped) == |pushed| ==> id == None && popped == old(popped)
      ensures old(popped) < |pushed| ==> id == Some(pushed[old(popped)]) && popped == old(popped) + 1
    {
      if head == tail {
        return None;
      }
      AroundNext(head, n);
      id := items[head];
      head := (head + 1) % n;
      popped := popped + 1;
    }
  }

  // ------------------------------------------------------------------
  // Counting the incoming edges
  // ------------------------------------------------------------------

  ghost function FromNodes(edges: Edges, done: set<nat>): Edges {
    set e | e in edges && e.0 in done
  }

  /** The edges of the first `i` entries of the list of node `p`. */
  ghost function First(p: nat, ids: seq<Id>, i: nat): Edges
    requires i <= |ids|
  {
    if i == 0 then {} else First(p, ids, i - 1) + {(p, ids[i - 1].index)}
  }

  lemma {:induction false} FirstHas(r: Rules, p: nat, ids: seq<Id>, i: nat, edges: Edges)
    requires i <= |ids| && Lists(r, ids, p, edges)
    ensures forall e | e in First(p, ids, i) :: e in edges && e.0 == p && exists j | 0 <= j < i :: ids[j].index == e.1
    ensures forall j | 0 <= j < i :: (p, ids[j].index) in First(p, ids, i)
    ensures forall j | i <= j < |ids| :: (p, ids[j].index) !in First(p, ids, i)
  {
    if i > 0 {
      FirstHas(r, p, ids, i - 1, edges);
    }
  }

  lemma FirstAll(r: Rules, p: nat, ids: seq<Id>, edges: Edges)
    requires Lists(r, ids, p, edges)
    ensures First(p, ids, |ids|) == OutOf(edges, p)
  {
    FirstHas(r, p, ids, |ids|, edges);
    forall e | e in OutOf(edges, p) ensures e in First(p, ids, |ids|) {
      assert (p, e.1) in edges;
      var j :| 0 <= j < |ids| && ids[j].index == e.1;
    }
  }

  /** The state of the initialisation: `done` are the nodes looked at. */
  ghost predicate Started(r: Rules, d: seq<Option<seq<Id>>>, edges: Edges, order: seq<nat>, done: set<nat>,
                          counts: seq<int>) {
    && Distinct(order)
    && (forall v: nat :: v in order <==> v in done && v < |d| && d[v].Some? && r.Prereqs(v) == [])
    && Counts(counts, FromNodes(edges, done))
  }

  /** Counts the edges out of node `p`. */
  method CountFrom(g: DependencyGraph, counts: array<int>, p: nat, ghost done: set<nat>)
    requires g.Valid() && p < counts.Length == g.rules.Size() && p !in done
    requires Counts(counts[..], FromNodes(g.edges, done))
    modifies counts
    ensures Counts(counts[..], FromNodes(g.edges, done + {p}))
  {
    hide Lists, Into, Counts, FromNodes, OutOf;
    var ids := g.depends[p].GetOr([]);
    ghost var seen := FromNodes(g.edges, done);
    assert Lists(g.rules, ids, p, g.edges);
    assert seen + First(p, ids, 0) == seen;
    for j := 0 to |ids|
      invariant Counts(counts[..], seen + First(p, ids, j))
    {
      IsListed(g.rules, ids, p, g.edges, j);
      NotSeen(g.rules, p, ids, j, g.edges, done);
      var t := ids[j].index;
      CountsMore(counts[..], seen + First(p, ids, j), p, t);
      assert seen + First(p, ids, j + 1) == seen + First(p, ids, j) + {(p, t)};
      ghost var before := counts[..];
      counts[t] := if counts[t] < 0 then 1 else counts[t] + 1;
      assert counts[..] == before[t := before[t] + 1];
    }
    FirstAll(g.rules, p, ids, g.edges);
    FromOneMore(g.edges, done, p);
  }

  lemma NotSeen(r: Rules, p: nat, ids: seq<Id>, j: nat, edges: Edges, done: set<nat>)
    requires j < |ids| && Lists(r, ids, p, edges) && p !in done
    ensures (p, ids[j].index) !in FromNodes(edges, done) + First(p, ids, j)
  {
    FirstHas(r, p, ids, j, edges);
  }

  lemma CountsMore(counts: seq<int>, live: Edges, p: nat, t: nat)
    requires Counts(counts, live) && (p, t) !in live && t < |counts|
    ensures counts[t] >= 0 && Counts(counts[t := counts[t] + 1], live + {(p, t)})
  {
    hide Into;
    IntoWith(live, p, t);
  }

  lemma FromOneMore(edges: Edges, done: set<nat>, p: nat)
    ensures FromNodes(edges, done + {p}) == FromNodes(edges, done) + OutOf(edges, p)
  {
  }

  /** One node of the initialisation: it joins the queue if it is in the graph and
      depends on nothing, and the edges out of it are counted. */
  method StartNode(g: DependencyGraph, q: Ring, counts: array<int>, v: nat, id: Id, ghost done: set<nat>)
    requires g.Valid() && q.Valid() && q.popped == 0 && q.n == counts.Length == g.rules.Size()
    requires v < counts.Length && v !in done && g.rules.Node(id) == v && g.rules.Known(id)
    requires Started(g.rules, g.depends[..], g.edges, Nodes(g.rules, q.pushed), done, counts[..])
    requires AllKnown(g.rules, q.pushed)
    modifies q`tail, q`pushed, q.items, counts
    ensures q.Valid() && q.popped == 0 && AllKnown(g.rules, q.pushed)
    ensures Started(g.rules, g.depends[..], g.edges, Nodes(g.rules, q.pushed), done + {v}, counts[..])
  {
    hide Lists, Counts, FromNodes;
    if g.depends[v] == None {
      NothingFrom(g.rules, v, g.edges, done);
      return;
    }
    ghost var order := Nodes(g.rules, q.pushed);
    if id.kind != Target || g.rules.targets[v].prereqs.None? || |g.rules.targets[v].prereqs.value| == 0 {
      FewerThan(order, q.n, v);
      q.Push(id);
      assert Nodes(g.rules, q.pushed) == order + [v];
    }
    CountFrom(g, counts, v, done);
  }

  lemma NothingFrom(r: Rules, v: nat, edges: Edges, done: set<nat>)
    requires Lists(r, [], v, edges)
    ensures FromNodes(edges, done + {v}) == FromNodes(edges, done)
  {
  }

  /** After the initialisation the algorithm is in its first state. */
  lemma StartedIsKahn(g: DependencyGraph, goal: nat, order: seq<nat>, done: set<nat>, counts: seq<int>)
    requires g.Valid() && g.Present() && IsClosure(g.rules, goal, g.edges)
    requires Started(g.rules, g.depends[..], g.edges, order, done, counts)
    requires forall v: nat :: v in done <==> v < g.rules.Size()
    ensures Kahn(g.rules.Size(), g.edges, order, 0, g.edges) && Counts(counts, g.edges)
  {
    var r, edges := g.rules, g.edges;
    assert FromNodes(edges, done) == edges;
    forall v: nat | v in order ensures Into(edges, v) == {} {
      IntoNeeds(r, goal, edges, v);
    }
    forall v: nat | Endpoint(edges, v) && Into(edges, v) == {} ensures v in order {
      var e :| e in edges && (e.0 == v || e.1 == v);
      IntoHas(edges, e.0, e.1);
      assert (v, e.1) in edges && r.Edge(goal, v, e.1);
      assert Lists(r, g.depends[v].GetOr([]), v, edges);
      r.ReachNext(goal, e.1, v);
      NeedsInto(r, goal, edges, v);
    }
    forall j, p: nat | 0 <= j < |order| ensures (p, order[j]) !in edges {
      IntoHas(edges, p, order[j]);
    }
    forall v | v in order ensures v < r.Size() && Endpoint(edges, v) {
      assert g.depends[v].Some?;
    }
  }

  lemma IntoNeeds(r: Rules, goal: nat, edges: Edges, v: nat)
    requires IsClosure(r, goal, edges)
    ensures forall e | e in Into(edges, v) :: r.Needs(v, e.0)
  {
    forall e | e in Into(edges, v) ensures r.Needs(v, e.0) {
      assert (e.0, v) in edges && r.Edge(goal, e.0, v);
    }
  }

  lemma NeedsInto(r: Rules, goal: nat, edges: Edges, v: nat)
    requires IsClosure(r, goal, edges) && r.Reaches(goal, v)
    ensures Into(edges, v) == {} ==> r.Prereqs(v) == []
  {
    if r.Prereqs(v) != [] {
      var q := r.Node(r.Prereqs(v)[0]);
      assert r.Needs(v, q);
      assert r.Edge(goal, q, v);
      assert (q, v) in Into(edges, v);
    }
  }

  lemma StartsEmpty(r: Rules, d: seq<Option<seq<Id>>>, edges: Edges, counts: seq<int>)
    requires forall v | 0 <= v < |counts| :: counts[v] == 0
    ensures Started(r, d, edges, Nodes(r, []), {}, counts)
  {
    assert FromNodes(edges, {}) == {} && forall v: nat :: Into({}, v) == {};
  }

  /** The first loops of dres_sort_graph: variables, then targets. */
  method Start(g: DependencyGraph, q: Ring, counts: array<int>, ghost goal: nat)
    requires g.Valid() && g.Present() && IsClosure(g.rules, goal, g.edges)
    requires q.Valid() && q.pushed == [] && q.popped == 0 && q.n == counts.Length == g.rules.Size()
    requires forall v | 0 <= v < counts.Length :: counts[v] == 0
    modifies q`tail, q`pushed, q.items, counts
    ensures q.Valid() && q.popped == 0 && AllKnown(g.rules, q.pushed)
    ensures Kahn(g.rules.Size(), g.edges, Nodes(g.rules, q.pushed), 0, g.edges) && Counts(counts[..], g.edges)
  {
    hide Lists, Kahn, Started;
    ghost var r := g.rules;
    var nt, nf, nd := |g.rules.targets|, g.rules.nfactvar, g.rules.ndresvar;
    ghost var done: set<nat> := {};
    StartsEmpty(r, g.depends[..], g.edges, counts[..]);
    for i := 0 to nd
      invariant q.Valid() && q.popped == 0 && AllKnown(r, q.pushed)
      invariant forall v: nat :: v in done <==> nt + nf <= v < nt + nf + i
      invariant Started(r, g.depends[..], g.edges, Nodes(r, q.pushed), done, counts[..])
    {
      StartNode(g, q, counts, nt + nf + i, Id(DresVar, i, false, false), done);
      done := done + {nt + nf + i};
    }
    for i := 0 to nf
      invariant q.Valid() && q.popped == 0 && AllKnown(r, q.pushed)
      invariant forall v: nat :: v in done <==> nt <= v < nt + i || nt + nf <= v < nt + nf + nd
      invariant Started(r, g.depends[..], g.edges, Nodes(r, q.pushed), done, counts[..])
    {
      StartNode(g, q, counts, nt + i, Id(FactVar, i, false, false), done);
      done := done + {nt + i};
    }
    for i := 0 to nt
      invariant q.Valid() && q.popped == 0 && AllKnown(r, q.pushed)
      invariant forall v: nat :: v in done <==> v < i || nt <= v < nt + nf + nd
      invariant Started(r, g.depends[..], g.edges, Nodes(r, q.pushed), done, counts[..])
    {
      StartNode(g, q, counts, i, g.rules.targets[i].id, done);
      done := done + {i as nat};
    }
    StartedIsKahn(g, goal, Nodes(r, q.pushed), done, counts[..]);
  }

  /** The edges out of nodes that have not been popped. */
  ghost function Live(edges: Edges, popped: seq<nat>): Edges {
    set e | e in edges && e.0 !in popped
  }

  /** Takes one edge out of the node popped last, unless it has been taken: flags it,
      and queues its target if that has no other edge left. */
  method TakeOne(g: DependencyGraph, q: Ring, counts: array<int>, v: nat, i: nat, ghost before: seq<nat>,
                 ghost ids: seq<Id>, ghost edges: Edges)
    requires q.Valid() && AllKnown(g.rules, q.pushed) && q.n == counts.Length == g.depends.Length == g.rules.Size()
    requires v < counts.Length && InRange(g.rules, edges) && Lists(g.rules, ids, v, edges) && v !in before
    requires i < |ids| && !ids[i].deleted && ids[i].kind == Target
    requires g.depends[v].Some? && i < |g.depends[v].value| && g.depends[v].value[i] == ids[i]
    requires Nodes(g.rules, q.pushed)[..q.popped] == before + [v]
    requires Kahn(q.n, edges, Nodes(g.rules, q.pushed), q.popped, Live(edges, before) - First(v, ids, i))
    requires Counts(counts[..], Live(edges, before) - First(v, ids, i))
    modifies q`tail, q`pushed, q.items, counts, g.depends
    ensures q.Valid() && AllKnown(g.rules, q.pushed) && old(q.pushed) <= q.pushed
    ensures g.depends[v] == Some(old(g.depends[v]).value[i := ids[i].(deleted := true)])
    ensures forall p | 0 <= p < g.depends.Length && p != v :: g.depends[p] == old(g.depends[p])
    ensures Kahn(q.n, edges, Nodes(g.rules, q.pushed), q.popped, Live(edges, before) - First(v, ids, i + 1))
    ensures Counts(counts[..], Live(edges, before) - First(v, ids, i + 1))
  {
    hide Lists, Kahn, Into, Ordered, Distinct, Counts, Live, First, InRange;
    var id := g.depends[v].value[i];
    if !id.deleted {
      var flagged := id.(deleted := true);
      g.depends[v] := Some(g.depends[v].value[i := flagged]);
      var t := g.rules.Node(flagged);
      IsListed(g.rules, ids, v, edges, i);
      StepTaken(g.rules, q.n, edges, Nodes(g.rules, q.pushed), q.popped, before, v, ids, i, counts[..]);
      ghost var counts0, order := counts[..], Nodes(g.rules, q.pushed);
      if counts[t] == 1 {
        counts[t] := 0;
        q.Push(flagged);
        assert Nodes(g.rules, q.pushed) == order + [t];
      } else {
        counts[t] := counts[t] - 1;
      }
      assert counts[..] == counts0[t := counts0[t] - 1];
    }
  }

  /** Takes every edge out of the node popped last, flagging the entries of its list
      and queueing the targets that have no other edge left. */
  method TakeEdges(g: DependencyGraph, q: Ring, counts: array<int>, v: nat, ghost d0: seq<Option<seq<Id>>>,
                   ghost edges: Edges)
    requires q.Valid() && 0 < q.popped && q.n == counts.Length == g.depends.Length == |d0| == g.rules.Size()
    requires InRange(g.rules, edges) && v < counts.Length && Lists(g.rules, d0[v].GetOr([]), v, edges)
    requires forall j | 0 <= j < |d0[v].GetOr([])| :: !d0[v].GetOr([])[j].deleted && d0[v].GetOr([])[j].kind == Target
    requires g.depends[v] == d0[v] && Nodes(g.rules, q.pushed)[q.popped - 1] == v
    requires v !in Nodes(g.rules, q.pushed)[..q.popped - 1] && AllKnown(g.rules, q.pushed)
    requires Kahn(q.n, edges, Nodes(g.rules, q.pushed), q.popped, Live(edges, Nodes(g.rules, q.pushed)[..q.popped - 1]))
    requires Counts(counts[..], Live(edges, Nodes(g.rules, q.pushed)[..q.popped - 1]))
    modifies q`tail, q`pushed, q.items, counts, g.depends
    ensures q.Valid() && q.pushed[..q.popped] == old(q.pushed)[..q.popped] && |q.pushed| >= |old(q.pushed)|
    ensures AllKnown(g.rules, q.pushed)
    ensures Kahn(q.n, edges, Nodes(g.rules, q.pushed), q.popped, Live(edges, Nodes(g.rules, q.pushed)[..q.popped]))
    ensures Counts(counts[..], Live(edges, Nodes(g.rules, q.pushed)[..q.popped]))
    ensures forall p | 0 <= p < g.depends.Length && p != v :: g.depends[p] == old(g.depends[p])
  {
    hide Lists, Kahn, Into, Ordered, Distinct, Counts, Live, OutOf, InRange;
    ghost var ids, k := d0[v].GetOr([]), q.popped;
    ghost var before := Nodes(g.rules, q.pushed)[..k - 1];
    ghost var live0 := Live(edges, before);
    var i := 0;
    assert live0 - First(v, ids, 0) == live0;
    assert Nodes(g.rules, q.pushed)[..k] == before + [v];
    while g.depends[v].Some? && i < |g.depends[v].value|
      invariant 0 <= i <= |ids| && |g.depends[v].GetOr([])| == |ids|
      invariant forall j | i <= j < |ids| :: g.depends[v].GetOr([])[j] == ids[j]
      invariant forall p | 0 <= p < g.depends.Length && p != v :: g.depends[p] == old(g.depends[p])
      invariant AllKnown(g.rules, q.pushed)
      invariant q.Valid() && q.pushed[..k] == old(q.pushed)[..k] && |q.pushed| >= |old(q.pushed)|
      invariant Nodes(g.rules, q.pushed)[..k] == before + [v]
      invariant Kahn(q.n, edges, Nodes(g.rules, q.pushed), k, live0 - First(v, ids, i))
      invariant Counts(counts[..], live0 - First(v, ids, i))
      decreases |ids| - i
    {
      TakeOne(g, q, counts, v, i, before, ids, edges);
      i := i + 1;
    }
    FirstAll(g.rules, v, ids, edges);
    LiveLess(edges, before, v);
  }

  lemma LiveLess(edges: Edges, before: seq<nat>, v: nat)
    ensures Live(edges, before) - OutOf(edges, v) == Live(edges, before + [v])
  {
  }

  /** One turn of that loop. */
  lemma StepTaken(r: Rules, n: nat, edges: Edges, order: seq<nat>, k: nat, before: seq<nat>, v: nat, ids: seq<Id>,
                  i: nat,
                  counts: seq<int>)
    requires i < |ids| && Lists(r, ids, v, edges) && n == |counts| == r.Size() && InRange(r, edges)
    requires k <= |order| && order[..k] == before + [v] && v !in before
    requires var live := Live(edges, before) - First(v, ids, i); Kahn(n, edges, order, k, live) && Counts(counts, live)
    ensures var t := ids[i].index;
            var live := Live(edges, before) - First(v, ids, i + 1);
            && t < n && counts[t] > 0 && (counts[t] == 1 ==> |order| < n)
            && Kahn(n, edges, if counts[t] == 1 then order + [t] else order, k, live)
            && Counts(counts[t := counts[t] - 1], live)
  {
    hide Kahn, Counts, Live;
    var t := ids[i].index;
    var live := Live(edges, before) - First(v, ids, i);
    IsListed(r, ids, v, edges, i);
    StillLive(r, ids, v, edges, before, i);
    assert order[..k][|before|] == v;
    TakeEdge(n, edges, order, k, live, v, t);
    CountsFewer(counts, live, v, t);
    assert Live(edges, before) - First(v, ids, i + 1) == live - {(v, t)};
  }

  lemma StillLive(r: Rules, ids: seq<Id>, v: nat, edges: Edges, before: seq<nat>, i: nat)
    requires i < |ids| && Lists(r, ids, v, edges) && v !in before
    ensures (v, ids[i].index) in Live(edges, before) - First(v, ids, i)
  {
    FirstHas(r, v, ids, i, edges);
  }

  lemma CountsFewer(counts: seq<int>, live: Edges, p: nat, t: nat)
    requires Counts(counts, live) && (p, t) in live && t < |counts|
    ensures counts[t] == |Into(live, t)| && Counts(counts[t := counts[t] - 1], live - {(p, t)})
  {
    hide Into;
    IntoWithout(live, p, t);
  }

  // ------------------------------------------------------------------
  // The result
  // ------------------------------------------------------------------

  /** The list stands for the nodes of `order`, and for nothing after them. */
  ghost predicate StandsFor(r: Rules, list: seq<Option<Id>>, order: seq<nat>) {
    && |list| == r.Size() + 1 && |order| <= r.Size()
    && (forall j | 0 <= j < |order| :: list[j].Some? && r.Known(list[j].value) && r.Node(list[j].value) == order[j])
    && (forall j | |order| <= j < |list| :: list[j] == None)
  }

  /** A node of the graph of a goal: it needs something or something needs it. */
  ghost predicate InGraph(r: Rules, goal: nat, v: nat) {
    exists p, t :: r.Edge(goal, p, t) && (v == p || v == t)
  }

  ghost predicate Before(order: seq<nat>, p: nat, t: nat) {
    exists i, j :: 0 <= i < j < |order| && order[i] == p && order[j] == t
  }

  /** A topological order of the graph of a goal. */
  ghost predicate Topological(r: Rules, goal: nat, order: seq<nat>) {
    && Distinct(order)
    && (forall v: nat :: v in order <==> InGraph(r, goal, v))
    && (forall p: nat, t: nat | r.Edge(goal, p, t) :: Before(order, p, t))
  }

  /** The state between two turns of the main loop. */
  ghost predicate Sorting(g: DependencyGraph, q: Ring, l: Ring, counts: array<int>, d0: seq<Option<seq<Id>>>,
                          edges: Edges)
    reads g.depends, q, q.items, l, l.items, counts
  {
    var r, order := g.rules, Nodes(g.rules, q.pushed);
    && q.Valid() && l.Valid() && l.popped == 0
    && q.n == l.n == counts.Length == g.depends.Length == |d0| == r.Size() && l.items.Length == q.n + 1
    && (q.popped == 0 ==> |q.pushed| < q.n)
    && Nodes(r, l.pushed) == order[..q.popped] && AllKnown(r, q.pushed) && AllKnown(r, l.pushed)
    && Kahn(q.n, edges, order, q.popped, Live(edges, order[..q.popped]))
    && Counts(counts[..], Live(edges, order[..q.popped]))
    && (forall p | 0 <= p < q.n && p !in order[..q.popped] :: g.depends[p] == d0[p])
  }

  /** The lists the sort begins with. */
  ghost predicate Fresh(r: Rules, d0: seq<Option<seq<Id>>>, edges: Edges) {
    && r.Valid() && |d0| == r.Size() && InRange(r, edges)
    && forall p | 0 <= p < |d0| :: Lists(r, d0[p].GetOr([]), p, edges)
  }

  lemma FreshList(r: Rules, d0: seq<Option<seq<Id>>>, edges: Edges, v: nat)
    requires Fresh(r, d0, edges) && v < |d0|
    ensures Lists(r, d0[v].GetOr([]), v, edges)
    ensures forall j | 0 <= j < |d0[v].GetOr([])| :: !d0[v].GetOr([])[j].deleted && d0[v].GetOr([])[j].kind == Target
  {
  }

  lemma KahnPops(n: nat, edges: Edges, order: seq<nat>, k: nat)
    requires k < |order| && Kahn(n, edges, order, k, Live(edges, order[..k]))
    ensures Kahn(n, edges, order, k + 1, Live(edges, order[..k]))
    ensures order[..k + 1][..k] == order[..k] && order[k] !in order[..k] && order[k] < n && k < n
  {
    hide Ordered, Into;
    assert order[k] in order;
    assert order[..k + 1] == order[..k] + [order[k]];
    NoMoreThan(order, n);
  }

  /** One turn of the main loop. */
  method PopNode(g: DependencyGraph, q: Ring, l: Ring, counts: array<int>, ghost d0: seq<Option<seq<Id>>>,
                 ghost edges: Edges)
    returns (more: bool)
    requires Sorting(g, q, l, counts, d0, edges) && Fresh(g.rules, d0, edges)
    requires q != l && q.items != l.items
    modifies q, q.items, l, l.items, counts, g.depends
    ensures Sorting(g, q, l, counts, d0, edges)
    ensures q.popped == old(q.popped) + if more then 1 else 0
    ensures !more ==> q.popped == |q.pushed|
  {
    hide Kahn, Lists, Counts, Live, Fresh;
    ghost var order0, k := Nodes(g.rules, q.pushed), q.popped;
    var node := q.Pop();
    if node.None? {
      return false;
    }
    var v := g.rules.Node(node.value);
    KahnPops(q.n, edges, order0, k);
    FreshList(g.rules, d0, edges, v);
    ghost var listed := Nodes(g.rules, l.pushed);
    l.Push(node.value);
    assert Nodes(g.rules, l.pushed) == listed + [v];
    InRangeOf(g.rules, d0, edges);
    TakeEdges(g, q, counts, v, d0, edges);
    assert Nodes(g.rules, q.pushed)[..k + 1] == order0[..k + 1] == order0[..k] + [v];
    return true;
  }

  /** The main loop. */
  method PopAll(g: DependencyGraph, q: Ring, l: Ring, counts: array<int>, ghost d0: seq<Option<seq<Id>>>,
                ghost edges: Edges)
    requires Sorting(g, q, l, counts, d0, edges) && Fresh(g.rules, d0, edges)
    requires q != l && q.items != l.items
    modifies q, q.items, l, l.items, counts, g.depends
    ensures Sorting(g, q, l, counts, d0, edges) && q.popped == |q.pushed|
  {
    hide Sorting, Fresh;
    var more := true;
    while more
      invariant Sorting(g, q, l, counts, d0, edges)
      invariant !more ==> q.popped == |q.pushed|
      decreases q.n - q.popped, more
    {
      more := PopNode(g, q, l, counts, d0, edges);
      PoppedSome(g, q, l, counts, d0, edges);
    }
  }

  lemma PoppedSome(g: DependencyGraph, q: Ring, l: Ring, counts: array<int>, d0: seq<Option<seq<Id>>>, edges: Edges)
    requires Sorting(g, q, l, counts, d0, edges)
    ensures q.popped <= |q.pushed| <= q.n
  {
  }

  lemma InRangeOf(r: Rules, d0: seq<Option<seq<Id>>>, edges: Edges)
    requires Fresh(r, d0, edges)
    ensures InRange(r, edges) && r.Valid() && |d0| == r.Size()
  {
  }

  /** Whether every edge has been taken. */
  method AllTaken(counts: array<int>, ghost live: Edges) returns (ok: bool)
    requires Counts(counts[..], live) && forall e | e in live :: e.1 < counts.Length
    ensures ok <==> live == {}
  {
    hide Counts;
    CountsZero(counts[..], live);
    ok := true;
    for i := 0 to counts.Length
      invariant ok <==> forall v | 0 <= v < i :: counts[v] == 0
    {
      if counts[i] != 0 {
        ok := false;
      }
    }
  }

  lemma CountsZero(counts: seq<int>, live: Edges)
    requires Counts(counts, live) && forall e | e in live :: e.1 < |counts|
    ensures live == {} <==> forall v | 0 <= v < |counts| :: counts[v] == 0
  {
    if live != {} {
      var e :| e in live;
      assert e in Into(live, e.1);
    } else {
      forall v | 0 <= v < |counts| ensures counts[v] == 0 {
        assert Into(live, v) == {};
      }
    }
  }

  /** dres_sort_graph: fails exactly if the graph has a cycle, and otherwise lists
      every node of the graph once, with nothing before what it needs. */
  method SortGraph(g: DependencyGraph, ghost goal: nat) returns (list: Option<array<Option<Id>>>, ghost order: seq<nat>)
    requires g.Valid() && g.Present() && IsClosure(g.rules, goal, g.edges) && g.rules.Size() > 0
    modifies g.depends
    ensures list.None? <==> HasCycle(g.edges)
    ensures list.Some? ==> StandsFor(g.rules, list.value[..], order) && fresh(list.value)
    ensures list.Some? ==>
              Distinct(order) && Ordered(order, g.edges) && forall v: nat :: v in order <==> Endpoint(g.edges, v)
  {
    hide Lists, HasCycle, Kahn, Counts;
    ghost var r, edges, d0 := g.rules, g.edges, g.depends[..];
    var n := |g.rules.targets| + g.rules.nfactvar + g.rules.ndresvar;
    var l := new Ring(n + 1, n);
    var q := new Ring(n, n);
    var counts := new int[n](i => 0);
    Start(g, q, counts, goal);
    NotFull(r, goal, edges, Nodes(r, q.pushed));
    assert Live(edges, Nodes(r, q.pushed)[..0]) == edges;
    PopAll(g, q, l, counts, d0, edges);
    order := Nodes(r, q.pushed);
    assert order[..q.popped] == order;
    Exhausted(n, edges, order, Live(edges, order));
    var ok := AllTaken(counts, Live(edges, order));
    KahnOrder(n, edges, order, |order|, Live(edges, order));
    list := if ok then Some(l.items) else None;
  }

  lemma KahnOrder(n: nat, edges: Edges, order: seq<nat>, k: nat, live: Edges)
    requires Kahn(n, edges, order, k, live)
    ensures Distinct(order) && Ordered(order, edges) && forall v | v in order :: Endpoint(edges, v)
  {
  }

  /** Not every node can be without incoming edges. */
  lemma NotFull(r: Rules, goal: nat, edges: Edges, order: seq<nat>)
    requires InRange(r, edges) && Kahn(r.Size(), edges, order, 0, edges) && r.Size() > 0
    ensures |order| < r.Size()
  {
    if order != [] {
      assert Endpoint(edges, order[0]);
      var e :| e in edges && (e.0 == order[0] || e.1 == order[0]);
      assert e in Into(edges, e.1);
      assert Endpoint(edges, e.1);
      FewerThan(order, r.Size(), e.1);
    }
  }

  lemma ChainBack(r: Rules, goal: nat, edges: Edges, path: seq<nat>)
    requires IsClosure(r, goal, edges) && r.Chain(path) && r.Reaches(goal, path[0])
    ensures Back(edges, path)
    ensures forall i | 0 <= i < |path| :: r.Reaches(goal, path[i])
    decreases |path|
  {
    if |path| > 1 {
      assert r.Needs(path[0], path[1]);
      r.ReachNext(goal, path[0], path[1]);
      assert r.Edge(goal, path[1], path[0]);
      var rest := path[1..];
      assert r.Chain(rest) by {
        forall i | 0 <= i < |rest| - 1 ensures r.Needs(rest[i], rest[i + 1]) {
          assert r.Needs(path[i + 1], path[i + 2]);
        }
      }
      ChainBack(r, goal, edges, rest);
      forall i | 0 <= i < |path| - 1 ensures (path[i + 1], path[i]) in edges {
        if i > 0 {
          assert (rest[i], rest[i - 1]) in edges;
        }
      }
      forall i | 0 <= i < |path| ensures r.Reaches(goal, path[i]) {
        if i > 0 {
          assert r.Reaches(goal, rest[i - 1]);
        }
      }
    }
  }

  /** The cycles of the graph are the cycles of the rules. */
  lemma SameCycles(r: Rules, goal: nat, edges: Edges)
    requires IsClosure(r, goal, edges)
    ensures HasCycle(edges) <==> r.Cyclic(goal)
  {
    if r.Cyclic(goal) {
      var path :| r.Chain(path) && |path| > 1 && path[0] == path[|path| - 1] && r.Reaches(goal, path[0]);
      ChainBack(r, goal, edges, path);
    }
    if HasCycle(edges) {
      var path :| Back(edges, path) && |path| > 1 && path[0] == path[|path| - 1];
      assert r.Chain(path) by {
        forall i | 0 <= i < |path| - 1 ensures r.Needs(path[i], path[i + 1]) {
          assert (path[i + 1], path[i]) in edges;
          assert r.Edge(goal, path[i + 1], path[i]);
        }
      }
      assert (path[1], path[0]) in edges;
      assert r.Edge(goal, path[1], path[0]);
    }
  }

  lemma IsTopological(r: Rules, goal: nat, edges: Edges, order: seq<nat>)
    requires IsClosure(r, goal, edges) && InRange(r, edges)
    requires Distinct(order) && Ordered(order, edges) && forall v: nat :: v in order <==> Endpoint(edges, v)
    ensures Topological(r, goal, order)
  {
    hide r.Edge;
    forall v: nat | v in order ensures InGraph(r, goal, v) {
      var e :| e in edges && (e.0 == v || e.1 == v);
      assert r.Edge(goal, e.0, e.1);
    }
    forall v: nat | InGraph(r, goal, v) ensures v in order {
      var p: nat, t: nat :| r.Edge(goal, p, t) && (v == p || v == t);
      assert (p, t) in edges;
      assert Endpoint(edges, v);
    }
    forall p: nat, t: nat | r.Edge(goal, p, t) ensures Before(order, p, t) {
      assert (p, t) in edges;
      assert Endpoint(edges, t);
      var j :| 0 <= j < |order| && order[j] == t;
      assert p in order[..j];
      var i :| 0 <= i < j && order[i] == p;
    }
  }

  lemma NothingAfterLast(order: seq<nat>, x: nat)
    requires Distinct(order) && order != [] && x == order[|order| - 1]
    ensures forall u :: !Before(order, x, u)
  {
  }

  /** A goal that needs anything is the last node of its list, which is empty if it
      needs nothing. */
  lemma GoalLast(r: Rules, goal: nat, order: seq<nat>)
    requires Topological(r, goal, order)
    ensures order == [] <==> r.Prereqs(goal) == []
    ensures order != [] ==> order[|order| - 1] == goal
  {
    r.ReachSelf(goal);
    if r.Prereqs(goal) != [] {
      assert r.Needs(goal, r.Node(r.Prereqs(goal)[0]));
      assert r.Edge(goal, r.Node(r.Prereqs(goal)[0]), goal);
      assert InGraph(r, goal, goal);
    }
    if order != [] {
      var x := order[|order| - 1];
      NothingAfterLast(order, x);
      assert InGraph(r, goal, x);
      if x != goal {
        var u := NeededBy(r, goal, x);
        assert false;
      }
      var p, t :| r.Edge(goal, p, t) && (x == p || x == t);
      if x == p {
        assert false;
      }
    }
  }

  /** Every node of the graph but the goal is a prerequisite of one of its targets. */
  lemma NeededBy(r: Rules, goal: nat, x: nat) returns (u: nat)
    requires InGraph(r, goal, x) && x != goal
    ensures r.Edge(goal, x, u)
  {
    var p, t :| r.Edge(goal, p, t) && (x == p || x == t);
    if x == p {
      u := t;
    } else {
      var path :| r.Chain(path) && path[0] == goal && path[|path| - 1] == x;
      u := path[|path| - 2];
      assert r.Needs(path[|path| - 2], path[|path| - 1]);
      var init := path[..|path| - 1];
      assert r.Chain(init) by {
        forall i | 0 <= i < |init| - 1 ensures r.Needs(init[i], init[i + 1]) {
          assert r.Needs(path[i], path[i + 1]);
        }
      }
      assert r.Reaches(goal, u);
    }
  }

  /** The dependencies of one target, as finalize_targets works them out. */
  method Dependencies(rules: Rules, goal: nat) returns (list: Option<array<Option<Id>>>, ghost order: seq<nat>)
    requires rules.Valid() && goal < |rules.targets|
    ensures list.None? <==> rules.targets[goal].id.undefined || rules.Cyclic(goal)
    ensures list.Some? ==> StandsFor(rules, list.value[..], order) && Topological(rules, goal, order)
  {
    hide HasCycle, StandsFor, rules.Cyclic, Topological, IsClosure;
    order := [];
    var graph := BuildGraph(rules, goal);
    if graph.None? {
      return None, order;
    }
    ghost var edges := graph.value.edges;
    list, order := SortGraph(graph.value, goal);
    SameCycles(rules, goal, edges);
    if list.Some? {
      IsTopological(rules, goal, edges, order);
    }
  }

  /** A rule set whose targets all have dependencies. */
  ghost predicate Finalizable(r: Rules) {
    forall i | 0 <= i < |r.targets| :: !r.targets[i].id.undefined && !r.Cyclic(i)
  }

  /** finalize_targets: succeeds exactly if every target is defined and needs itself
      in no way. */
  method Finalize(rules: Rules) returns (ok: bool, dependencies: seq<seq<Option<Id>>>, ghost orders: seq<seq<nat>>)
    requires rules.Valid()
    ensures ok <==> Finalizable(rules)
    ensures ok ==> |dependencies| == |orders| == |rules.targets|
    ensures ok ==> forall i | 0 <= i < |rules.targets| ::
              StandsFor(rules, dependencies[i], orders[i]) && Topological(rules, i, orders[i])
  {
    hide StandsFor, rules.Cyclic, Topological;
    ok, dependencies, orders := true, [], [];
    for i := 0 to |rules.targets|
      invariant |dependencies| == |orders| == i
      invariant forall k | 0 <= k < i :: !rules.targets[k].id.undefined && !rules.Cyclic(k)
      invariant forall k | 0 <= k < i ::
                  StandsFor(rules, dependencies[k], orders[k]) && Topological(rules, k, orders[k])
    {
      var list, order := Dependencies(rules, i);
      if list.None? {
        return false, dependencies, orders;
      }
      dependencies, orders := dependencies + [list.value[..]], orders + [order];
    }
  }
}
