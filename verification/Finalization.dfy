/** dres_finalize (src/dres.c:414-485): the actions of all targets are compiled, and
    then the dependencies of all targets are sorted. */
module Finalization {
  import opened Words
  import opened Facts
  import opened Machine
  import opened Lang
  import opened Emit
  import opened Compiler
  import opened Ids
  import opened Graph
  import opened Sort
  import Protocol
  import Outdated

  /** The chunk of a target is the code of its actions; a target without actions has none. */
  ghost predicate IsCodeOf(cfg: Config, chunk: Option<Chunk>, ss: seq<Stmt>)
    reads if chunk.Some? then {chunk.value} else {}
  {
    && (chunk.None? <==> ss == [])
    && (chunk.Some? ==> chunk.value.cells == TargetCode(cfg, ss).cells && chunk.value.ninstr == TargetCode(cfg, ss).n)
  }

  ghost predicate AllAccepted(cfg: Config, bodies: seq<seq<Stmt>>) {
    forall t | 0 <= t < |bodies| :: AcceptsStmts(cfg, bodies[t])
  }

  /** finalize_actions. */
  method FinalizeActions(cfg: Config, bodies: seq<seq<Stmt>>) returns (ok: bool, chunks: seq<Option<Chunk>>)
    ensures ok <==> AllAccepted(cfg, bodies)
    ensures ok ==> |chunks| == |bodies| && forall t | 0 <= t < |bodies| :: IsCodeOf(cfg, chunks[t], bodies[t])
  {
    hide AcceptsStmts, StmtsCode;
    chunks := [];
    for t := 0 to |bodies|
      invariant |chunks| == t
      invariant forall k | 0 <= k < t :: AcceptsStmts(cfg, bodies[k]) && IsCodeOf(cfg, chunks[k], bodies[k])
    {
      var fine, chunk := CompileTarget(cfg, bodies[t]);
      if !fine {
        return false, chunks;
      }
      chunks := chunks + [chunk];
    }
    ok := true;
  }

  /** dres_finalize succeeds exactly if all actions compile and all targets are defined
      and acyclic.  The result has the code of every target with actions and sorted
      dependencies, so that the theorems about updates apply. */
  method Prepare(cfg: Config, rules: Rules, names: seq<string>, bodies: seq<seq<Stmt>>, locals: seq<string>)
    returns (sys: Option<Protocol.System>, chunks: seq<Option<Chunk>>)
    requires rules.Valid() && 0 < |rules.targets| == |names| == |bodies|
    requires forall t | 0 <= t < |rules.targets| :: rules.targets[t].prereqs != Some([])
    ensures sys.Some? <==> AllAccepted(cfg, bodies) && Finalizable(rules)
    ensures sys.Some? ==>
              && Outdated.Linked(sys.value)
              && sys.value.rules == rules && sys.value.names == names && sys.value.locals == locals
              && |chunks| == |bodies| == |sys.value.hasCode|
              && (forall t | 0 <= t < |bodies| :: IsCodeOf(cfg, chunks[t], bodies[t]))
              && (forall t | 0 <= t < |bodies| :: sys.value.hasCode[t] <==> bodies[t] != [])
  {
    hide Finalizable, Topological, AllAccepted;
    var fine;
    fine, chunks := FinalizeActions(cfg, bodies);
    if !fine {
      return None, chunks;
    }
    var ok, deps, orders := Finalize(rules);
    if !ok {
      return None, chunks;
    }
    var hasCode := seq(|bodies|, t requires 0 <= t < |bodies| => bodies[t] != []);
    var system := Protocol.System(rules, names, hasCode, deps, locals);
    forall i, j | 0 <= i < |deps| && 0 <= j < |deps[i]| && deps[i][j].Some? && deps[i][j].value.kind == Target
      ensures deps[i][j].value.index < |rules.targets|
    {
      assert StandsFor(rules, deps[i], orders[i]);
      assert j < |orders[i]|;
    }
    forall t | 0 <= t < |deps| ensures Outdated.HasOrder(system, t) {
      assert StandsFor(rules, deps[t], orders[t]) && Topological(rules, t, orders[t]);
      assert Outdated.IsOrder(system, t, orders[t]);
    }
    sys := Some(system);
  }
}
