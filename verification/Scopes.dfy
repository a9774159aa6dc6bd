/** Local variables, the stack and match fields (src/vm-local.c, src/vm-stack.c,
    src/compiler.c): what is read after a scope has been filled, which of several
    scopes decides, and in which order names are taken. */
module Scopes {
  import opened Words
  import opened Facts
  import opened Machine
  import opened Lang

  /** Scope `k` is the innermost one that sets a variable. */
  predicate Innermost(scope: seq<Frame>, idx: nat, k: nat) {
    k < |scope| && idx in scope[k] && forall i: nat | k < i < |scope| :: idx !in scope[i]
  }

  /** The innermost scope that sets a variable decides, however far out it is; a
      variable no scope sets, or out of range, reads as nothing. */
  lemma {:induction false} InnermostDecides(nlocal: nat, scope: seq<Frame>, idx: nat)
    ensures forall k: nat | Innermost(scope, idx, k) && idx < nlocal :: ScopeGet(nlocal, scope, idx) == scope[k][idx]
    ensures (idx >= nlocal || forall i | 0 <= i < |scope| :: idx !in scope[i]) ==> ScopeGet(nlocal, scope, idx) == Nil
  {
    if scope != [] {
      var n := |scope| - 1;
      InnermostDecides(nlocal, scope[..n], idx);
      forall k: nat | Innermost(scope, idx, k) && k < n ensures Innermost(scope[..n], idx, k) {
      }
    }
  }

  /** Setting a variable: refused out of range and for globals; an unset value leaves the
      scope alone; otherwise the variable reads as the value, and the others as before. */
  lemma SettingReads(nlocal: nat, frame: Frame, idx: nat, v: Value, outer: seq<Frame>, x: nat)
    ensures var r := ScopeSet(nlocal, frame, idx, v);
            && (r.None? <==> idx >= nlocal || v.Glob?)
            && (r.Some? ==>
                  ScopeGet(nlocal, outer + [r.value], x)
                  == if x == idx && v != Nil then v else ScopeGet(nlocal, outer + [frame], x))
  {
    assert (outer + [frame])[..|outer|] == outer;
    if ScopeSet(nlocal, frame, idx, v).Some? {
      assert (outer + [ScopeSet(nlocal, frame, idx, v).value])[..|outer|] == outer;
    }
  }

  /** The first of the named locals of a call that binds a variable to something. */
  predicate FirstBinding(locals: seq<Binding>, vs: seq<Value>, x: nat, i: nat)
    requires |locals| == |vs|
  {
    && i < |vs| && locals[i].idx == x && vs[i] != Nil
    && forall j | 0 <= j < i :: !(locals[j].idx == x && vs[j] != Nil)
  }

  /** None of them binds it. */
  predicate Unbound(locals: seq<Binding>, vs: seq<Value>, x: nat)
    requires |locals| == |vs|
  {
    forall i | 0 <= i < |vs| :: locals[i].idx != x || vs[i] == Nil
  }

  lemma FirstEarlier(locals: seq<Binding>, vs: seq<Value>, x: nat)
    requires |locals| == |vs| > 0
    ensures var n := |vs| - 1;
            && (forall i: nat | i < n :: FirstBinding(locals, vs, x, i) ==> FirstBinding(locals[..n], vs[..n], x, i))
            && (FirstBinding(locals, vs, x, n) ==> Unbound(locals[..n], vs[..n], x))
            && (Unbound(locals, vs, x) ==> Unbound(locals[..n], vs[..n], x))
  {
  }

  /** Something cannot be bound. */
  predicate Unbindable(cfg: Config, locals: seq<Binding>, vs: seq<Value>)
    requires |locals| == |vs|
  {
    exists i | 0 <= i < |vs| :: locals[i].idx >= cfg.nlocal || vs[i].Glob?
  }

  lemma UnbindableLast(cfg: Config, locals: seq<Binding>, vs: seq<Value>)
    requires |locals| == |vs| > 0
    ensures var n := |vs| - 1;
            Unbindable(cfg, locals, vs)
            <==> Unbindable(cfg, locals[..n], vs[..n]) || locals[n].idx >= cfg.nlocal || vs[n].Glob?
  {
    var n := |vs| - 1;
    if i :| 0 <= i < n && (locals[i].idx >= cfg.nlocal || vs[i].Glob?) {
      assert locals[..n][i] == locals[i] && vs[..n][i] == vs[i];
    }
  }

  /** The first binding of a variable wins; a variable that is not bound reads as in the
      scopes around the call. */
  lemma {:induction false} FirstWins(cfg: Config, locals: seq<Binding>, vs: seq<Value>, frame: Frame,
                                     outer: seq<Frame>, x: nat)
    requires |locals| == |vs|
    ensures var r := BindAll(cfg, locals, vs, frame);
            && (r.None? <==> Unbindable(cfg, locals, vs))
            && (r.Some? ==>
                  var v := ScopeGet(cfg.nlocal, outer + [r.value], x);
                  && (forall i: nat | FirstBinding(locals, vs, x, i) :: v == vs[i])
                  && (Unbound(locals, vs, x) ==> v == ScopeGet(cfg.nlocal, outer + [frame], x)))
  {
    if locals != [] {
      hide ScopeGet, ScopeSet, Unbindable, Unbound, FirstBinding;
      var n := |locals| - 1;
      SettingReads(cfg.nlocal, frame, locals[n].idx, vs[n], outer, x);
      UnbindableLast(cfg, locals, vs);
      FirstEarlier(locals, vs, x);
      var f := ScopeSet(cfg.nlocal, frame, locals[n].idx, vs[n]);
      if f.Some? {
        FirstWins(cfg, locals[..n], vs[..n], f.value, outer, x);
        LastBinding(locals, vs, x);
      }
    }
  }

  lemma LastBinding(locals: seq<Binding>, vs: seq<Value>, x: nat)
    requires |locals| == |vs| > 0
    ensures var n := |vs| - 1;
            && (forall i: nat | FirstBinding(locals, vs, x, i) :: i <= n)
            && (FirstBinding(locals, vs, x, n) ==> locals[n].idx == x && vs[n] != Nil)
            && (Unbound(locals, vs, x) ==> locals[n].idx != x || vs[n] == Nil)
  {
  }

  // ------------------------------------------------------------------
  // The stack
  // ------------------------------------------------------------------

  /** Making room: the entries fit afterwards, a stack with room is left alone, and no
      more room is made than that. */
  lemma RoomMade(cap: nat, depth: nat, n: nat)
    ensures var c := Grow(cap, depth, n);
            && depth + n <= c && cap <= c
            && (depth + n <= cap ==> c == cap) && (depth + n > cap ==> c == depth + n)
  {
  }

  /** The status of a run: positive exactly if it came to its end, negative for every
      exception with an error number, and 0 for a call that failed silently. */
  lemma StatusMeans(f: Final)
    requires !f.Stuck?
    ensures Status(f) > 0 <==> f.Ran?
    ensures f.Threw? && f.err != 0 ==> Status(f) < 0 && (Status(f) == f.err || Status(f) == -f.err)
    ensures f.Gave? ==> Status(f) == 0
  {
  }

  // ------------------------------------------------------------------
  // Match fields
  // ------------------------------------------------------------------

  lemma {:induction false} MatchFieldsTogether(a: seq<Selector>, b: seq<Selector>)
    ensures MatchFields(a + b) == MatchFields(a) + MatchFields(b)
  {
    if b == [] {
      assert a + b == a;
    } else {
      MatchFieldsTogether(a, b[..|b| - 1]);
      assert (a + b)[..|a + b| - 1] == a + b[..|b| - 1];
    }
  }

  /** The match fields are those of the selectors without an operand, in the order of
      the selectors; and they are taken from the stack in reverse. */
  lemma MatchFieldsAre(sels: seq<Selector>, i: nat)
    requires i < |sels|
    ensures MatchFields(sels)
         == MatchFields(sels[..i]) + (if sels[i].operand.None? then [sels[i].field] else [])
            + MatchFields(sels[i + 1..])
    ensures MatchFields([]) == []
  {
    hide MatchFields;
    var one := [sels[i]];
    assert sels == sels[..i] + one + sels[i + 1..];
    MatchFieldsOne(sels[i]);
    MatchFieldsTogether(sels[..i], one);
    MatchFieldsTogether(sels[..i] + one, sels[i + 1..]);
  }

  lemma MatchFieldsOne(sel: Selector)
    ensures MatchFields([sel]) == if sel.operand.None? then [sel.field] else []
    ensures MatchFields([]) == []
  {
    assert [sel][..0] == [];
  }

  lemma {:induction false} TakenInReverse(s: seq<string>, k: nat)
    requires k < |s|
    ensures |Reversed(s)| == |s| && Reversed(s)[k] == s[|s| - 1 - k]
  {
    if |s| > 1 {
      TakenInReverse(s[..|s| - 1], if k > 0 then k - 1 else 0);
    }
  }
}
