/** The dependency graph of a goal (src/graph.c): the recursive closure of the
    prerequisites, stored as reversed adjacency lists. */
module Graph {
  import opened Words
  import opened Ids

  /** What the graph needs to know of a target; no list means no prerequisites. */
  datatype Rule = Rule(id: Id, prereqs: Option<seq<Id>>)

  datatype Rules = Rules(targets: seq<Rule>, nfactvar: nat, ndresvar: nat) {
    function Size(): nat {
      |targets| + nfactvar + ndresvar
    }

    function Node(id: Id): nat {
      id.Node(|targets|, nfactvar)
    }

    /** An identifier the rules can contain. */
    predicate Known(id: Id) {
      match id.kind
      case Target => id.index < |targets|
      case FactVar => id.index < nfactvar
      case DresVar => id.index < ndresvar
    }

    ghost predicate Valid() {
      && (forall i | 0 <= i < |targets| ::
            targets[i].id.kind == Target && targets[i].id.index == i && !targets[i].id.deleted)
      && (forall i, j | 0 <= i < |targets| && targets[i].prereqs.Some? && 0 <= j < |targets[i].prereqs.value| ::
            Known(targets[i].prereqs.value[j]))
    }

    function Prereqs(t: nat): seq<Id> {
      if t < |targets| && targets[t].prereqs.Some? then targets[t].prereqs.value else []
    }

    /** Target `t` has node `p` as a prerequisite. */
    ghost predicate Needs(t: nat, p: nat) {
      exists j | 0 <= j < |Prereqs(t)| :: Node(Prereqs(t)[j]) == p
    }

    /** Each node of the path needs the next one. */
    ghost predicate Chain(path: seq<nat>) {
      path != [] && forall i | 0 <= i < |path| - 1 :: Needs(path[i], path[i + 1])
    }

    ghost predicate Reaches(goal: nat, t: nat) {
      exists path :: Chain(path) && path[0] == goal && path[|path| - 1] == t
    }

    /** The edges of the graph of a goal: prerequisite to target. */
    ghost predicate Edge(goal: nat, p: nat, t: nat) {
      Reaches(goal, t) && Needs(t, p)
    }

    /** Some node the goal needs, however indirectly, needs itself. */
    ghost predicate Cyclic(goal: nat) {
      exists path :: Chain(path) && |path| > 1 && path[0] == path[|path| - 1] && Reaches(goal, path[0])
    }

    lemma NodeInRange(id: Id)
      requires Known(id)
      ensures Node(id) < Size()
    {
    }

    lemma NeedsInRange(t: nat, p: nat)
      requires Valid() && Needs(t, p)
      ensures t < |targets| && p < Size()
    {
      var j :| 0 <= j < |Prereqs(t)| && Node(Prereqs(t)[j]) == p;
      NodeInRange(Prereqs(t)[j]);
    }

    lemma ReachSelf(goal: nat)
      ensures Reaches(goal, goal)
    {
      assert Chain([goal]);
    }

    lemma ReachNext(goal: nat, t: nat, p: nat)
      requires Reaches(goal, t) && Needs(t, p)
      ensures Reaches(goal, p)
    {
      var path :| Chain(path) && path[0] == goal && path[|path| - 1] == t;
      var longer := path + [p];
      forall i | 0 <= i < |longer| - 1 ensures Needs(longer[i], longer[i + 1]) {
        if i < |path| - 1 {
          assert Needs(path[i], path[i + 1]);
        }
      }
      assert Chain(longer);
    }
  }

  /** The adjacency list of node `p` holds exactly the targets `p` has edges to,
      by their own identifiers and each once. */
  ghost predicate Lists(r: Rules, ids: seq<Id>, p: nat, edges: set<(nat, nat)>) {
    && (forall j | 0 <= j < |ids| ::
          ids[j].index < |r.targets| && ids[j] == r.targets[ids[j].index].id && (p, ids[j].index) in edges)
    && (forall j, k | 0 <= j < k < |ids| :: ids[j].index != ids[k].index)
    && (forall t | (p, t) in edges :: exists j | 0 <= j < |ids| :: ids[j].index == t)
  }

  ghost predicate InRange(r: Rules, edges: set<(nat, nat)>) {
    forall p, t | (p, t) in edges :: p < r.Size() && t < |r.targets|
  }

  ghost function AllPairs(r: Rules): set<(nat, nat)> {
    set p, t | 0 <= p < r.Size() && 0 <= t < |r.targets| :: (p, t)
  }

  /** Everything `p` needs has an edge to `p`. */
  ghost predicate Complete(r: Rules, p: nat, edges: set<(nat, nat)>) {
    forall q: nat | r.Needs(p, q) :: (q, p) in edges
  }

  /** What holds of every edge an extension of the graph adds: it belongs to the
      closure, and the prerequisites of its source are in the graph as well. */
  ghost predicate Extends(r: Rules, goal: nat, before: set<(nat, nat)>, edges: set<(nat, nat)>) {
    && before <= edges
    && forall p, t | (p, t) in edges && (p, t) !in before :: r.Edge(goal, p, t) && Complete(r, p, edges)
  }

  lemma ListsMore(r: Rules, ids: seq<Id>, p: nat, edges: set<(nat, nat)>, t: nat)
    requires Lists(r, ids, p, edges) && t < |r.targets| && (p, t) !in edges && r.targets[t].id.index == t
    ensures Lists(r, ids + [r.targets[t].id], p, edges + {(p, t)})
  {
    var more, all := ids + [r.targets[t].id], edges + {(p, t)};
    assert more[|ids|].index == t;
    forall u | (p, u) in all ensures exists j | 0 <= j < |more| :: more[j].index == u {
      if u != t {
        var j :| 0 <= j < |ids| && ids[j].index == u;
        assert more[j].index == u;
      }
    }
  }

  lemma FewerLeft(r: Rules, before: set<(nat, nat)>, p: nat, t: nat)
    requires p < r.Size() && t < |r.targets| && (p, t) !in before
    ensures |AllPairs(r) - (before + {(p, t)})| < |AllPairs(r) - before|
  {
    assert AllPairs(r) - before == (AllPairs(r) - (before + {(p, t)})) + {(p, t)};
  }

  lemma FewerOrSame(r: Rules, before: set<(nat, nat)>, after: set<(nat, nat)>)
    requires before <= after
    ensures |AllPairs(r) - after| <= |AllPairs(r) - before|
  {
    assert AllPairs(r) - before == (AllPairs(r) - after) + (AllPairs(r) * after - before);
  }

  ghost predicate Endpoint(edges: set<(nat, nat)>, v: nat) {
    exists e | e in edges :: e.0 == v || e.1 == v
  }

  /** dres_graph_t; a missing list stands for a count of -1. */
  class DependencyGraph {
    const rules: Rules
    const depends: array<Option<seq<Id>>>
    ghost var edges: set<(nat, nat)>

    ghost predicate Valid()
      reads this, depends
    {
      && rules.Valid() && depends.Length == rules.Size() && InRange(rules, edges)
      && forall p | 0 <= p < depends.Length :: Lists(rules, depends[p].GetOr([]), p, edges)
    }

    constructor (r: Rules)
      requires r.Valid()
      ensures Valid() && rules == r && edges == {} && fresh(depends)
      ensures forall p | 0 <= p < depends.Length :: depends[p] == None
    {
      rules := r;
      edges := {};
      depends := new Option<seq<Id>>[r.Size()](i => None);
    }

    /** graph_has_prereq. */
    method HasPrereq(t: nat, prid: Id) returns (has: bool)
      requires Valid() && t < |rules.targets| && rules.Known(prid)
      ensures has <==> (rules.Node(prid), t) in edges
    {
      var p := rules.Node(prid);
      var ids := depends[p].GetOr([]);
      var i := 0;
      while i < |ids|
        invariant 0 <= i <= |ids|
        invariant forall j | 0 <= j < i :: ids[j].index != t
      {
        if ids[i] == rules.targets[t].id {
          return true;
        }
        i := i + 1;
      }
      return false;
    }

    /** graph_add_prereq. */
    method AddPrereq(t: nat, prid: Id)
      requires Valid() && t < |rules.targets| && rules.Known(prid) && (rules.Node(prid), t) !in edges
      modifies this`edges, depends
      ensures Valid() && edges == old(edges) + {(rules.Node(prid), t)}
      ensures forall p | 0 <= p < depends.Length ::
                depends[p] == if p == rules.Node(prid) then Some(old(depends[p]).GetOr([]) + [rules.targets[t].id])
                              else old(depends[p])
    {
      var p := rules.Node(prid);
      var ids := depends[p].GetOr([]);
      depends[p] := Some(ids + [rules.targets[t].id]);
      edges := edges + {(p, t)};
      ListsMore(rules, ids, p, old(edges), t);
      forall q | 0 <= q < depends.Length && q != p ensures Lists(rules, depends[q].GetOr([]), q, edges) {
        assert Lists(rules, old(depends[q]).GetOr([]), q, old(edges));
      }
    }

    /** Nodes present in the graph have edges. */
    ghost predicate Present()
      reads this, depends
    {
      forall p | 0 <= p < depends.Length && depends[p].Some? :: Endpoint(edges, p)
    }

    /** graph_build_prereq; it terminates on cyclic rules because no edge is added
        twice. */
    method BuildPrereq(goal: nat, t: nat, prid: Id)
      requires Valid() && Present() && prid in rules.Prereqs(t) && rules.Reaches(goal, t)
      modifies this`edges, depends
      ensures Valid() && Present() && Extends(rules, goal, old(edges), edges) && (rules.Node(prid), t) in edges
      decreases |AllPairs(rules) - edges|, 0
    {
      hide Lists, InRange;
      var p := rules.Node(prid);
      assert rules.Needs(t, p);
      rules.NeedsInRange(t, p);
      var has := HasPrereq(t, prid);
      if has {
        return;
      }
      AddPrereq(t, prid);
      FewerLeft(rules, old(edges), p, t);
      rules.ReachNext(goal, t, p);
      match prid.kind {
        case Target =>
          BuildAll(goal, p);
        case _ =>
          assert rules.Prereqs(p) == [];
      }
    }

    /** The loop over the prerequisites of a target. */
    method BuildAll(goal: nat, t: nat)
      requires Valid() && Present() && rules.Reaches(goal, t)
      modifies this`edges, depends
      ensures Valid() && Present() && Extends(rules, goal, old(edges), edges) && Complete(rules, t, edges)
      decreases |AllPairs(rules) - edges|, 1
    {
      hide Lists, InRange;
      var ids := rules.Prereqs(t);
      var i := 0;
      while i < |ids|
        invariant 0 <= i <= |ids|
        invariant Valid() && Present() && Extends(rules, goal, old(edges), edges)
        invariant forall j | 0 <= j < i :: (rules.Node(ids[j]), t) in edges
      {
        FewerOrSame(rules, old(edges), edges);
        BuildPrereq(goal, t, ids[i]);
        i := i + 1;
      }
    }

    /** One of the loops of graph_add_leafs: the targets that the nodes from `lo`
        to `hi` have edges to become part of the graph. */
    method AddLeafsFrom(lo: nat, hi: int)
      requires Valid() && Present() && hi <= depends.Length
      modifies depends
      ensures Valid() && Present()
    {
      hide Lists;
      for i := lo to if hi < lo then lo else hi
        invariant Valid() && Present()
      {
        var ids := depends[i].GetOr([]);
        assert Lists(rules, ids, i, edges);
        for j := 0 to |ids|
          invariant Valid() && Present()
        {
          IsListed(rules, ids, i, edges, j);
          if depends[ids[j].index] == None {
            depends[ids[j].index] := Some([]);
            assert Endpoint(edges, ids[j].index);
          }
        }
      }
    }

    /** graph_add_leafs.  The second and the third loop begin at the number of
        targets, where 0 is meant, and so may leave targets out. */
    method AddLeafs()
      requires Valid() && Present()
      modifies depends
      ensures Valid() && Present()
    {
      var ntarget, nfactvar, ndresvar := |rules.targets|, rules.nfactvar, rules.ndresvar;
      AddLeafsFrom(0, ntarget);
      AddLeafsFrom(ntarget + ntarget, ntarget + nfactvar);
      AddLeafsFrom(ntarget + nfactvar + ntarget, ntarget + nfactvar + ndresvar);
    }
  }

  lemma IsListed(r: Rules, ids: seq<Id>, p: nat, edges: set<(nat, nat)>, j: nat)
    requires Lists(r, ids, p, edges) && j < |ids|
    ensures ids[j].index < |r.targets| && ids[j] == r.targets[ids[j].index].id && (p, ids[j].index) in edges
  {
  }

  /** The graph holds exactly the closure of the goal. */
  ghost predicate IsClosure(r: Rules, goal: nat, edges: set<(nat, nat)>) {
    forall p: nat, t: nat :: (p, t) in edges <==> r.Edge(goal, p, t)
  }

  lemma {:induction false} PathComplete(r: Rules, goal: nat, edges: set<(nat, nat)>, path: seq<nat>)
    requires r.Chain(path) && path[0] == goal
    requires Extends(r, goal, {}, edges) && Complete(r, goal, edges)
    ensures Complete(r, path[|path| - 1], edges)
  {
    if |path| > 1 {
      var init := path[..|path| - 1];
      assert r.Chain(init) by {
        forall i | 0 <= i < |init| - 1 ensures r.Needs(init[i], init[i + 1]) {
          assert r.Needs(path[i], path[i + 1]);
        }
      }
      PathComplete(r, goal, edges, init);
      assert r.Needs(path[|path| - 2], path[|path| - 1]);
      assert (path[|path| - 1], path[|path| - 2]) in edges;
    }
  }

  lemma ClosureReached(r: Rules, goal: nat, edges: set<(nat, nat)>)
    requires Extends(r, goal, {}, edges) && Complete(r, goal, edges)
    ensures IsClosure(r, goal, edges)
  {
    forall p: nat, t: nat | r.Edge(goal, p, t) ensures (p, t) in edges {
      var path :| r.Chain(path) && path[0] == goal && path[|path| - 1] == t;
      PathComplete(r, goal, edges, path);
    }
  }

  /** dres_build_graph: fails on an undefined goal and otherwise ends with exactly
      the edges of the closure, each once, whatever cycles the rules have. */
  method BuildGraph(rules: Rules, goal: nat) returns (graph: Option<DependencyGraph>)
    requires rules.Valid() && goal < |rules.targets|
    ensures graph.None? <==> rules.targets[goal].id.undefined
    ensures graph.Some? ==>
              && graph.value.Valid() && graph.value.Present() && graph.value.rules == rules
              && fresh(graph.value) && fresh(graph.value.depends)
              && IsClosure(rules, goal, graph.value.edges)
  {
    if rules.targets[goal].id.undefined {
      return None;
    }
    var g := new DependencyGraph(rules);
    rules.ReachSelf(goal);
    g.BuildAll(goal, goal);
    ClosureReached(rules, goal, g.edges);
    g.AddLeafs();
    graph := Some(g);
  }
}
