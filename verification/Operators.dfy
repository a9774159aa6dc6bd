/** What the operators of the rule language make of their operands: the orders of
    numbers and strings, what counts as true, and what the language manual does not
    lead one to expect (doc/resolver-overview.txt): operands of different types, and
    the negation of strings. */
module Operators {
  import opened Words
  import opened Facts
  import opened Machine

  /** strcmp is 0 for equal strings only, and swapping its arguments swaps its sign. */
  lemma {:induction false} StrCmpOrders(s: string, t: string)
    ensures StrCmp(s, t) == 0 <==> s == t
    ensures StrCmp(t, s) == -StrCmp(s, t)
  {
    if s != [] && t != [] && s[0] == t[0] {
      StrCmpOrders(s[1..], t[1..]);
      assert s == [s[0]] + s[1..] && t == [t[0]] + t[1..];
    }
  }

  predicate Holds(op: nat, a: Value, b: Value) {
    Compare(op, a, b) == Some(Bool(true))
  }

  predicate Comparable(v: Value) {
    v.Int? || v.Dbl? || v.Str?
  }

  /** What a value is, wherever a string lives. */
  function Content(v: Value): Value {
    if v.Str? then Str(v.s) else v
  }

  /** Each operator is the negation of its opposite for operands of one type, and
      only for these: for operands of different types every operator gives 0, so
      that they are neither equal nor different. */
  lemma OppositesNeedOneType(a: Value, b: Value)
    requires Comparable(a) && Comparable(b)
    ensures (Holds(RELOP_NE, a, b) <==> !Holds(RELOP_EQ, a, b)) <==> SameType(a, b)
    ensures (Holds(RELOP_GE, a, b) <==> !Holds(RELOP_LT, a, b)) <==> SameType(a, b)
    ensures (Holds(RELOP_GT, a, b) <==> !Holds(RELOP_LE, a, b)) <==> SameType(a, b)
    ensures Holds(RELOP_EQ, a, b) <==> Content(a) == Content(b)
  {
    if a.Str? && b.Str? {
      StrCmpOrders(a.s, b.s);
    }
  }

  /** Negation and branching agree about what is true, but for the empty string,
      which is neither: a branch takes it for false, and so does its negation. */
  lemma NegationMissesEmpty(v: Value)
    requires v != Nil
    ensures Truth(v).Some? && Negate(v).Some?
    ensures Negate(v) == Some(Bool(!Truth(v).value)) <==> Content(v) != Str("")
  {
  }

  // ------------------------------------------------------------------
  // Orders
  // ------------------------------------------------------------------

  /** Numbers are compared as numbers. */
  lemma NumbersOrdered(i: int, j: int, d: real, e: real)
    ensures Holds(RELOP_EQ, Int(i), Int(j)) <==> i == j
    ensures Holds(RELOP_NE, Int(i), Int(j)) <==> i != j
    ensures Holds(RELOP_LT, Int(i), Int(j)) <==> i < j
    ensures Holds(RELOP_LE, Int(i), Int(j)) <==> i <= j
    ensures Holds(RELOP_GT, Int(i), Int(j)) <==> i > j
    ensures Holds(RELOP_GE, Int(i), Int(j)) <==> i >= j
    ensures Holds(RELOP_EQ, Dbl(d), Dbl(e)) <==> d == e
    ensures Holds(RELOP_NE, Dbl(d), Dbl(e)) <==> d != e
    ensures Holds(RELOP_LT, Dbl(d), Dbl(e)) <==> d < e
    ensures Holds(RELOP_LE, Dbl(d), Dbl(e)) <==> d <= e
    ensures Holds(RELOP_GT, Dbl(d), Dbl(e)) <==> d > e
    ensures Holds(RELOP_GE, Dbl(d), Dbl(e)) <==> d >= e
  {
  }

  /** The first characters that differ are at `k`. */
  predicate DiffersAt(s: string, t: string, k: nat) {
    k < |s| && k < |t| && s[..k] == t[..k] && s[k] < t[k]
  }

  /** The order of a dictionary: a proper beginning comes first, and otherwise the first
      characters that differ decide. */
  predicate Precedes(s: string, t: string) {
    s < t || exists k | 0 <= k < |s| :: DiffersAt(s, t, k)
  }

  lemma {:induction false} StrCmpPrecedes(s: string, t: string)
    ensures StrCmp(s, t) < 0 <==> Precedes(s, t)
  {
    if s != [] && t != [] {
      hide Precedes;
      if s[0] == t[0] {
        StrCmpPrecedes(s[1..], t[1..]);
        TailPrecedes(s, t);
      } else {
        HeadPrecedes(s, t);
      }
    }
  }

  lemma HeadPrecedes(s: string, t: string)
    requires s != [] && t != [] && s[0] != t[0]
    ensures Precedes(s, t) <==> s[0] < t[0]
  {
    assert s[..0] == t[..0];
    assert DiffersAt(s, t, 0) <==> s[0] < t[0];
    forall k: nat | k > 0 ensures !DiffersAt(s, t, k) {
      HeadsDiffer(s, t, k);
    }
  }

  lemma HeadsDiffer(s: string, t: string, k: nat)
    requires s != [] && t != [] && s[0] != t[0] && k > 0
    ensures !DiffersAt(s, t, k)
  {
    if k < |s| && k < |t| {
      assert s[..k][0] == s[0] && t[..k][0] == t[0];
    }
  }

  lemma DiffersLater(s: string, t: string, k: nat)
    requires s != [] && t != [] && s[0] == t[0]
    ensures DiffersAt(s, t, k + 1) <==> DiffersAt(s[1..], t[1..], k)
  {
    if k < |s[1..]| && k < |t[1..]| {
      assert s[..k + 1] == [s[0]] + s[1..][..k] && t[..k + 1] == [t[0]] + t[1..][..k];
      assert s[1..][..k] == s[..k + 1][1..] && t[1..][..k] == t[..k + 1][1..];
    }
  }

  lemma BeginsLater(s: string, t: string)
    requires s != [] && t != [] && s[0] == t[0]
    ensures s < t <==> s[1..] < t[1..]
  {
    if |s| <= |t| {
      assert t[..|s|] == [t[0]] + t[1..][..|s| - 1] && s == [s[0]] + s[1..];
      assert t[1..][..|s| - 1] == t[..|s|][1..];
    }
  }

  lemma TailPrecedes(s: string, t: string)
    requires s != [] && t != [] && s[0] == t[0]
    ensures Precedes(s, t) <==> Precedes(s[1..], t[1..])
  {
    hide DiffersAt;
    BeginsLater(s, t);
    if k :| 0 <= k < |s[1..]| && DiffersAt(s[1..], t[1..], k) {
      DiffersLater(s, t, k);
      assert 0 <= k + 1 < |s|;
    }
    if k :| 0 <= k < |s| && DiffersAt(s, t, k) {
      assert k > 0 by {
        DiffersFirst(s, t);
      }
      DiffersLater(s, t, k - 1);
      assert 0 <= k - 1 < |s[1..]|;
    }
  }

  lemma DiffersFirst(s: string, t: string)
    requires s != [] && t != [] && s[0] == t[0]
    ensures !DiffersAt(s, t, 0)
  {
  }

  /** Strings are compared in the order of a dictionary, wherever they live. */
  lemma StringsOrdered(a: Value, b: Value)
    requires a.Str? && b.Str?
    ensures Holds(RELOP_EQ, a, b) <==> a.s == b.s
    ensures Holds(RELOP_NE, a, b) <==> a.s != b.s
    ensures Holds(RELOP_LT, a, b) <==> Precedes(a.s, b.s)
    ensures Holds(RELOP_GT, a, b) <==> Precedes(b.s, a.s)
    ensures Holds(RELOP_LE, a, b) <==> !Precedes(b.s, a.s)
    ensures Holds(RELOP_GE, a, b) <==> !Precedes(a.s, b.s)
  {
    hide Precedes;
    StrCmpOrders(a.s, b.s);
    StrCmpPrecedes(a.s, b.s);
    StrCmpPrecedes(b.s, a.s);
  }

  /** What raises: comparing two globals or two unset locals by a proper operator. */
  lemma ComparingRaises(op: nat, a: Value, b: Value)
    requires RELOP_EQ <= op <= RELOP_GE
    ensures Compare(op, a, b).None? <==> (a.Glob? && b.Glob?) || (a == Nil && b == Nil)
    ensures Compare(op, a, b).Some? ==> Compare(op, a, b).value == Int(1) || Compare(op, a, b).value == Int(0)
  {
  }

  /** What a condition takes for true: a number other than 0, a string with characters,
      a global with facts; and an unset local raises. */
  lemma ConditionsMean(v: Value, t: bool)
    ensures Truth(v) == Some(t) <==>
              (v.Int? && (v.i == 0 <==> !t)) || (v.Dbl? && (v.d == 0.0 <==> !t)) || (v.Str? && (v.s == "" <==> !t))
              || (v.Glob? && (v.g.facts == [] <==> !t))
    ensures Truth(v).None? <==> v == Nil
  {
  }

  /** Negation gives 1 for 0 and for a global without facts, 0 for other numbers and
      globals, and 0 for every string; an unset local raises. */
  lemma NegationMeans(v: Value)
    ensures Negate(v) == Some(Int(1)) <==>
              (v.Int? && v.i == 0) || (v.Dbl? && v.d == 0.0) || (v.Glob? && v.g.facts == [])
    ensures Negate(v) == Some(Int(0)) <==>
              (v.Int? && v.i != 0) || (v.Dbl? && v.d != 0.0) || v.Str? || (v.Glob? && v.g.facts != [])
    ensures Negate(v).None? <==> v == Nil
  {
  }
}
