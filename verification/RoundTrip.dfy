/** Loading a saved rule set gives the targets that were saved, within the arena
    that is worked out from the header. */
module RoundTrip {
  import opened Words
  import opened Machine
  import opened Precompiled

  // ------------------------------------------------------------------
  // What is written
  // ------------------------------------------------------------------

  function NumItems(nums: seq<int>): (items: seq<Item>)
    ensures |items| == |nums|
  {
    seq(|nums|, i requires 0 <= i < |nums| => Num(nums[i]))
  }

  function PrereqItems(prereqs: Option<seq<int>>): seq<Item> {
    [Num(|prereqs.GetOr([])|)] + NumItems(prereqs.GetOr([]))
  }

  function CodeItems(w: Width, code: Option<Image>): seq<Item> {
    match code
    case None => [Num(0)]
    case Some(c) => [Num(c.ninstr), Num(CodeSize(w, c.cells)), Block(c.cells)]
  }

  function DepItems(deps: Option<seq<int>>): seq<Item> {
    match deps
    case None => [Num(0)]
    case Some(ids) => [Num(|ids| + 1)] + NumItems(ids)
  }

  function TargetItems(w: Width, t: TargetImage, offs: nat): seq<Item> {
    [Num(t.id)] + ([Num(offs)] + (PrereqItems(t.prereqs) + (CodeItems(w, t.code) + DepItems(t.deps))))
  }

  /** If the buffer is in order afterwards, it was before, and the items are there. */
  ghost predicate Wrote(b: Writer, b1: Writer, items: seq<Item>) {
    b1.error == 0 ==> b.error == 0 && b1.items == b.items + items && b1.strings == b.strings
  }

  lemma WroteBoth(b: Writer, b1: Writer, b2: Writer, x: seq<Item>, y: seq<Item>)
    requires Wrote(b, b1, x) && Wrote(b1, b2, y)
    ensures Wrote(b, b2, x + y)
  {
  }

  lemma {:induction false} WroteNums(b: Writer, nums: seq<int>)
    ensures Wrote(b, PutNums(b, nums), NumItems(nums))
  {
    if nums != [] {
      var init, last := nums[..|nums| - 1], nums[|nums| - 1];
      WroteNums(b, init);
      WroteBoth(b, PutNums(b, init), PutNums(b, nums), NumItems(init), [Num(last)]);
      assert NumItems(nums) == NumItems(init) + [Num(last)];
    }
  }

  lemma WrotePrereqs(b: Writer, prereqs: Option<seq<int>>)
    ensures Wrote(b, SavePrereqs(b, prereqs), PrereqItems(prereqs))
  {
    var ids := prereqs.GetOr([]);
    WroteNums(PutNum(b, |ids|), ids);
    WroteBoth(b, PutNum(b, |ids|), SavePrereqs(b, prereqs), [Num(|ids|)], NumItems(ids));
  }

  lemma WroteCode(w: Width, b: Writer, code: Option<Image>)
    ensures Wrote(b, SaveCode(w, b, code), CodeItems(w, code))
  {
    hide CodeSize;
  }

  lemma WroteDeps(b: Writer, deps: Option<seq<int>>)
    ensures Wrote(b, SaveDeps(b, deps), DepItems(deps))
  {
    if deps.Some? {
      var n := |deps.value| + 1;
      WroteNums(PutNum(b, n), deps.value);
      WroteBoth(b, PutNum(b, n), SaveDeps(b, deps), [Num(n)], NumItems(deps.value));
    }
  }

  // ------------------------------------------------------------------
  // Strings
  // ------------------------------------------------------------------

  predicate NoNul(s: string) {
    forall i | 0 <= i < |s| :: s[i] != '\0'
  }

  /** The string comes at the offset, followed by a zero. */
  ghost predicate HeldAt(strings: string, offs: nat, s: string) {
    offs + |s| < |strings| && strings[offs..offs + |s|] == s && strings[offs + |s|] == '\0'
  }

  lemma {:induction false} ReadsBack(strings: string, offs: nat, s: string)
    requires HeldAt(strings, offs, s) && NoNul(s)
    ensures StringAt(strings, offs) == s
    decreases |s|
  {
    if s != [] {
      assert strings[offs] == s[0];
      assert strings[offs + 1..offs + |s|] == s[1..] by {
        assert strings[offs..offs + |s|][1..] == strings[offs + 1..offs + |s|];
      }
      ReadsBack(strings, offs + 1, s[1..]);
    }
  }

  /** A string keeps its place when others are appended. */
  lemma HeldLater(strings: string, more: string, offs: nat, s: string)
    requires HeldAt(strings, offs, s) && strings <= more
    ensures HeldAt(more, offs, s)
  {
    assert more[..|strings|] == strings;
    assert more[offs..offs + |s|] == more[..|strings|][offs..offs + |s|];
  }

  lemma AlignUpMore(w: Width, n: nat)
    ensures AlignUp(w, n) >= n
  {
  }

  lemma WroteStr(w: Width, b: Writer, s: Option<string>)
    requires b.strings != "" && b.strings[0] == '\0'
    ensures var b1 := PutStr(w, b, s);
            b1.error == 0 ==>
              && b.error == 0 && b1.items == b.items + [Num(OffsetOf(b, s))] && b.strings <= b1.strings
              && HeldAt(b1.strings, OffsetOf(b, s), s.GetOr(""))
  {
    if s.GetOr("") != "" {
      AlignUpMore(w, |s.value| + 1);
      var offs, pad := |b.strings|, Zeros(AlignUp(w, |s.value| + 1) - |s.value|);
      var strings := b.strings + s.value + pad;
      assert strings[offs..offs + |s.value|] == s.value;
      assert strings[offs + |s.value|] == pad[0];
    }
  }

  // ------------------------------------------------------------------
  // A target
  // ------------------------------------------------------------------

  lemma WroteTarget(w: Width, b: Writer, t: TargetImage)
    requires b.strings != "" && b.strings[0] == '\0'
    ensures var b1 := SaveTarget(w, b, t);
            b1.error == 0 ==>
              && b.error == 0 && b1.items == b.items + TargetItems(w, t, OffsetOf(b, t.name)) && b.strings <= b1.strings
              && HeldAt(b1.strings, OffsetOf(b, t.name), t.name.GetOr(""))
  {
    hide PutStr, SavePrereqs, SaveCode, SaveDeps, PrereqItems, CodeItems, DepItems, HeldAt;
    var b1 := PutNum(b, t.id);
    var b2 := PutStr(w, b1, t.name);
    var b3 := SavePrereqs(b2, t.prereqs);
    var b4 := SaveCode(w, b3, t.code);
    var b5 := SaveDeps(b4, t.deps);
    WroteStr(w, b1, t.name);
    WrotePrereqs(b2, t.prereqs);
    WroteCode(w, b3, t.code);
    WroteDeps(b4, t.deps);
    WroteBoth(b3, b4, b5, CodeItems(w, t.code), DepItems(t.deps));
    WroteBoth(b2, b3, b5, PrereqItems(t.prereqs), CodeItems(w, t.code) + DepItems(t.deps));
  }

  // ------------------------------------------------------------------
  // What is read back
  // ------------------------------------------------------------------

  /** What a target is after it has been saved and loaded: an empty list of
      prerequisites is none, and a missing name is empty. */
  function Normal(t: TargetImage): TargetImage {
    t.(name := Some(t.name.GetOr("")), prereqs := if t.prereqs.GetOr([]) == [] then None else t.prereqs)
  }

  /** Compiled code holds at least HALT; names are C strings; no dependency is the
      terminator. */
  ghost predicate Saveable(t: TargetImage) {
    && NoNul(t.name.GetOr("")) && (t.code.Some? ==> t.code.value.ninstr > 0)
    && -1 !in t.deps.GetOr([])
  }

  function PrereqArena(w: Width, t: TargetImage): nat {
    if t.prereqs.GetOr([]) == [] then 0 else SizePrereq(w) + 4 * |t.prereqs.value|
  }

  function CodeArena(w: Width, t: TargetImage): nat {
    if t.code.None? then 0 else SizeChunk(w) + CodeSize(w, t.code.value.cells)
  }

  function DepArena(t: TargetImage): nat {
    if t.deps.None? then 0 else 4 * (|t.deps.value| + 1)
  }

  /** What loading a target takes from the arena. */
  function Arena(w: Width, t: TargetImage): nat {
    PrereqArena(w, t) + CodeArena(w, t) + DepArena(t)
  }

  lemma ReadNum(r: Reader, i: int, rest: seq<Item>)
    requires r.items == [Num(i)] + rest
    ensures GetNum(r) == (i, r.(items := rest))
  {
  }

  lemma {:induction false} ReadNums(r: Reader, nums: seq<int>, rest: seq<Item>)
    requires r.items == NumItems(nums) + rest
    ensures GetNums(r, |nums|) == (nums, r.(items := rest))
  {
    if nums == [] {
      assert r.items == rest;
    } else {
      var init, last := nums[..|nums| - 1], nums[|nums| - 1];
      assert NumItems(nums) == NumItems(init) + [Num(last)];
      assert r.items == NumItems(init) + ([Num(last)] + rest);
      ReadNums(r, init, [Num(last)] + rest);
      ReadNum(r.(items := [Num(last)] + rest), last, rest);
      assert init + [last] == nums;
    }
  }

  lemma ReadPrereqs(w: Width, r: Reader, t: TargetImage, rest: seq<Item>)
    requires r.error == 0 && r.items == PrereqItems(t.prereqs) + rest && r.dsize - r.dused >= PrereqArena(w, t)
    ensures LoadPrereqs(w, r) == Got(Normal(t).prereqs, r.(items := rest, dused := r.dused + PrereqArena(w, t)))
  {
    var ids := t.prereqs.GetOr([]);
    assert r.items == [Num(|ids|)] + (NumItems(ids) + rest);
    ReadNum(r, |ids|, NumItems(ids) + rest);
    if ids != [] {
      ReadNums(r.(items := NumItems(ids) + rest, dused := r.dused + PrereqArena(w, t)), ids, rest);
    } else {
      assert NumItems(ids) + rest == rest;
    }
  }

  lemma ReadCode(w: Width, r: Reader, t: TargetImage, rest: seq<Item>)
    requires r.error == 0 && r.items == CodeItems(w, t.code) + rest && r.dsize - r.dused >= CodeArena(w, t)
    requires t.code.Some? ==> t.code.value.ninstr > 0
    ensures LoadCode(w, r) == if t.code.Some? && r.dused % w.Bytes() != 0 then Exited
                              else Got(t.code, r.(items := rest, dused := r.dused + CodeArena(w, t)))
  {
    hide CodeSize;
    match t.code
    case None => ReadNum(r, 0, rest);
    case Some(c) =>
      var size := CodeSize(w, c.cells);
      assert r.items == [Num(c.ninstr)] + ([Num(size)] + ([Block(c.cells)] + rest));
      ReadNum(r, c.ninstr, [Num(size)] + ([Block(c.cells)] + rest));
      var r2 := r.(items := [Num(size)] + ([Block(c.cells)] + rest), dused := r.dused + SizeChunk(w));
      ReadNum(r2, size, [Block(c.cells)] + rest);
  }

  lemma ReadDeps(r: Reader, t: TargetImage, rest: seq<Item>)
    requires r.error == 0 && r.items == DepItems(t.deps) + rest && r.dsize - r.dused >= DepArena(t)
    ensures LoadDeps(r) == Got(t.deps, r.(items := rest, dused := r.dused + DepArena(t)))
  {
    match t.deps
    case None => ReadNum(r, 0, rest);
    case Some(ids) =>
      assert r.items == [Num(|ids| + 1)] + (NumItems(ids) + rest);
      ReadNum(r, |ids| + 1, NumItems(ids) + rest);
      ReadNums(r.(items := NumItems(ids) + rest, dused := r.dused + DepArena(t)), ids, rest);
  }

  lemma ReadTarget(w: Width, r: Reader, t: TargetImage, offs: nat, rest: seq<Item>)
    requires Saveable(t) && r.error == 0 && r.items == TargetItems(w, t, offs) + rest
    requires HeldAt(r.strings, offs, t.name.GetOr("")) && r.dsize - r.dused >= Arena(w, t)
    ensures LoadTarget(w, r) == if t.code.Some? && (r.dused + PrereqArena(w, t)) % w.Bytes() != 0 then Exited
                                else Got(Normal(t), r.(items := rest, dused := r.dused + Arena(w, t)))
  {
    hide LoadPrereqs, LoadCode, LoadDeps, PrereqItems, CodeItems, DepItems, PrereqArena, CodeArena, DepArena, StringAt;
    var i3 := DepItems(t.deps) + rest;
    var i2 := CodeItems(w, t.code) + i3;
    var i1 := PrereqItems(t.prereqs) + i2;
    assert r.items == [Num(t.id)] + ([Num(offs)] + i1);
    ReadNum(r, t.id, [Num(offs)] + i1);
    ReadNum(r.(items := [Num(offs)] + i1), offs, i1);
    ReadsBack(r.strings, offs, t.name.GetOr(""));
    var r2 := r.(items := i1);
    ReadPrereqs(w, r2, t, i2);
    var r3 := r2.(items := i2, dused := r.dused + PrereqArena(w, t));
    ReadCode(w, r3, t, i3);
    var r4 := r3.(items := i3, dused := r3.dused + CodeArena(w, t));
    ReadDeps(r4, t, rest);
  }

  // ------------------------------------------------------------------
  // All targets
  // ------------------------------------------------------------------

  function ArenaAll(w: Width, ts: seq<TargetImage>): nat {
    if ts == [] then 0 else ArenaAll(w, ts[..|ts| - 1]) + Arena(w, ts[|ts| - 1])
  }

  /** Numbers stored before the code of target `i`: the entries of the lists that
      come before it, with their terminators. */
  function NumbersOf(t: TargetImage): nat {
    |t.prereqs.GetOr([])| + if t.deps.None? then 0 else |t.deps.value| + 1
  }

  function NumbersBefore(ts: seq<TargetImage>): nat {
    if ts == [] then 0 else NumbersBefore(ts[..|ts| - 1]) + NumbersOf(ts[|ts| - 1])
  }

  /** A 64-bit host cannot load code that comes after an odd number of entries. */
  predicate Misaligned(w: Width, ts: seq<TargetImage>, i: nat)
    requires i < |ts|
  {
    w.W64? && ts[i].code.Some? && (NumbersBefore(ts[..i]) + |ts[i].prereqs.GetOr([])|) % 2 == 1
  }

  predicate Loadable(w: Width, ts: seq<TargetImage>) {
    forall i | 0 <= i < |ts| :: !Misaligned(w, ts, i)
  }

  function AllNormal(ts: seq<TargetImage>): (r: seq<TargetImage>)
    ensures |r| == |ts| && forall i | 0 <= i < |ts| :: r[i] == Normal(ts[i])
  {
    seq(|ts|, i requires 0 <= i < |ts| => Normal(ts[i]))
  }

  /** Offsets of the names. */
  ghost predicate NamesHeld(strings: string, ts: seq<TargetImage>, offs: seq<nat>) {
    |offs| == |ts| && forall i | 0 <= i < |ts| :: HeldAt(strings, offs[i], ts[i].name.GetOr(""))
  }

  function AllItems(w: Width, ts: seq<TargetImage>, offs: seq<nat>): seq<Item>
    requires |ts| == |offs|
  {
    if ts == [] then []
    else
      var n := |ts| - 1;
      AllItems(w, ts[..n], offs[..n]) + TargetItems(w, ts[n], offs[n])
  }

  lemma {:induction false} WroteAll(w: Width, b: Writer, ts: seq<TargetImage>) returns (offs: seq<nat>)
    requires b.strings != "" && b.strings[0] == '\0'
    ensures |offs| == |ts|
    ensures var b1 := SaveEach(w, b, ts);
            b1.error == 0 ==>
              && b.error == 0 && b1.items == b.items + AllItems(w, ts, offs) && b.strings <= b1.strings
              && NamesHeld(b1.strings, ts, offs)
  {
    hide SaveTarget, TargetItems, HeldAt;
    offs := [];
    if ts != [] {
      var n := |ts| - 1;
      offs := WroteAll(w, b, ts[..n]);
      var b0 := SaveEach(w, b, ts[..n]);
      var b1 := SaveTarget(w, b0, ts[n]);
      offs := offs + [OffsetOf(b0, ts[n].name)];
      assert offs[..n] + [offs[n]] == offs;
      if b1.error == 0 {
        StickyTarget(w, b0, ts[n]);
        assert b0.strings != "" && b0.strings[0] == '\0' by {
          assert b0.strings[..|b.strings|] == b.strings;
        }
        WroteTarget(w, b0, ts[n]);
        forall i | 0 <= i < |ts| ensures HeldAt(b1.strings, offs[i], ts[i].name.GetOr("")) {
          if i < n {
            assert HeldAt(b0.strings, offs[..n][i], ts[..n][i].name.GetOr(""));
            HeldLater(b0.strings, b1.strings, offs[i], ts[i].name.GetOr(""));
          }
        }
      }
    }
  }

  /** An error stays. */
  lemma StickyTarget(w: Width, b: Writer, t: TargetImage)
    requires SaveTarget(w, b, t).error == 0
    ensures b.error == 0
  {
    hide StrAlloc;
    var b1 := PutNum(b, t.id);
    var b2 := PutStr(w, b1, t.name);
    WrotePrereqs(b2, t.prereqs);
    WroteCode(w, SavePrereqs(b2, t.prereqs), t.code);
    WroteDeps(SaveCode(w, SavePrereqs(b2, t.prereqs), t.code), t.deps);
    StickyStr(w, b1, t.name);
  }

  lemma StickyStr(w: Width, b: Writer, s: Option<string>)
    requires PutStr(w, b, s).error == 0
    ensures b.error == 0
  {
  }

  lemma Sum4(a: int, b: int)
    requires a % 4 == 0 && b % 4 == 0
    ensures (a + b) % 4 == 0
  {
  }

  lemma Sum8(a: int, b: int)
    requires a % 8 == 0 && b % 8 == 0
    ensures (a + b) % 8 == 0
  {
  }

  lemma Parity8(x: int, n: int)
    requires (x - 4 * n) % 8 == 0
    ensures x % 8 != 0 <==> n % 2 == 1
  {
  }

  /** What the arena is used for so far, but for the entries of lists, is aligned. */
  lemma {:induction false} ArenaParity(w: Width, ts: seq<TargetImage>)
    ensures w.W32? ==> ArenaAll(w, ts) % 4 == 0
    ensures w.W64? ==> (ArenaAll(w, ts) - 4 * NumbersBefore(ts)) % 8 == 0
  {
    hide Arena, NumbersOf;
    if ts != [] {
      var init, last := ts[..|ts| - 1], ts[|ts| - 1];
      ArenaParity(w, init);
      OneParity(w, last);
      if w.W32? {
        Sum4(ArenaAll(w, init), Arena(w, last));
      } else {
        Sum8(ArenaAll(w, init) - 4 * NumbersBefore(init), Arena(w, last) - 4 * NumbersOf(last));
      }
    }
  }

  lemma OneParity(w: Width, t: TargetImage)
    ensures w.W32? ==> Arena(w, t) % 4 == 0 && PrereqArena(w, t) % 4 == 0
    ensures w.W64? ==> (Arena(w, t) - 4 * NumbersOf(t)) % 8 == 0
    ensures w.W64? ==> (PrereqArena(w, t) - 4 * |t.prereqs.GetOr([])|) % 8 == 0
  {
  }

  lemma TableAligned(w: Width, n: nat)
    ensures TableSize(w, n) % w.Bytes() == 0
  {
    assert w.W32? ==> TableSize(w, n) == 4 * (9 * n);
    assert w.W64? ==> TableSize(w, n) == 8 * (8 * n);
  }

  /** Code turns out misaligned exactly after an odd number of entries. */
  lemma AlignedIff(w: Width, ts: seq<TargetImage>, i: nat)
    requires i < |ts|
    ensures ts[i].code.Some? && (TableSize(w, |ts|) + ArenaAll(w, ts[..i]) + PrereqArena(w, ts[i])) % w.Bytes() != 0
        <==> Misaligned(w, ts, i)
  {
    hide ArenaAll, PrereqArena, NumbersBefore, Arena, TableSize;
    TableAligned(w, |ts|);
    var base: int, a: int, p: int := TableSize(w, |ts|), ArenaAll(w, ts[..i]), PrereqArena(w, ts[i]);
    ArenaParity(w, ts[..i]);
    OneParity(w, ts[i]);
    if w.W32? {
      Sum4(base, a);
      Sum4(base + a, p);
    } else {
      var n, k := NumbersBefore(ts[..i]), |ts[i].prereqs.GetOr([])|;
      Sum8(base, a - 4 * n);
      Sum8(base + a - 4 * n, p - 4 * k);
      Parity8(base + a + p, n + k);
    }
  }

  // ------------------------------------------------------------------
  // The arena
  // ------------------------------------------------------------------

  function Plus(a: Header, b: Header): Header {
    Header(a.ntarget + b.ntarget, a.nprereq + b.nprereq, a.ncode + b.ncode, a.sinstr + b.sinstr,
           a.ndependency + b.ndependency, a.nvariable + b.nvariable, a.ninit + b.ninit, a.nfield + b.nfield,
           a.nmethod + b.nmethod)
  }

  /** What saving a target adds to the header. */
  function Counted(w: Width, t: TargetImage): Header {
    Header(|t.prereqs.GetOr([])|, 0, if t.code.Some? then 1 else 0,
           if t.code.Some? then CodeSize(w, t.code.value.cells) else 0,
           if t.deps.Some? then |t.deps.value| + 1 else 0, 0, 0, 0, 0)
  }

  function CountedAll(w: Width, ts: seq<TargetImage>): Header {
    if ts == [] then NO_COUNTS
    else Plus(CountedAll(w, ts[..|ts| - 1]), Counted(w, ts[|ts| - 1]))
  }

  lemma {:induction false} NumsCountNothing(b: Writer, nums: seq<int>)
    ensures PutNums(b, nums).header == b.header
  {
    if nums != [] {
      NumsCountNothing(b, nums[..|nums| - 1]);
    }
  }

  lemma PrereqsCount(b: Writer, prereqs: Option<seq<int>>)
    ensures SavePrereqs(b, prereqs).header == b.header.(ntarget := b.header.ntarget + |prereqs.GetOr([])|)
  {
    NumsCountNothing(PutNum(b, |prereqs.GetOr([])|), prereqs.GetOr([]));
  }

  lemma CodeCounts(w: Width, b: Writer, code: Option<Image>)
    ensures SaveCode(w, b, code).header
         == if code.None? then b.header
            else b.header.(ncode := b.header.ncode + 1, sinstr := b.header.sinstr + CodeSize(w, code.value.cells))
  {
    hide CodeSize;
  }

  lemma DepsCount(b: Writer, deps: Option<seq<int>>)
    ensures SaveDeps(b, deps).header
         == if deps.None? then b.header
            else b.header.(ndependency := b.header.ndependency + |deps.value| + 1)
  {
    if deps.Some? {
      NumsCountNothing(PutNum(b, |deps.value| + 1), deps.value);
    }
  }

  lemma TargetCounts(w: Width, b: Writer, t: TargetImage)
    ensures SaveTarget(w, b, t).header == Plus(b.header, Counted(w, t))
  {
    hide CodeSize, PutStr, SavePrereqs, SaveCode, SaveDeps;
    var b2 := PutStr(w, PutNum(b, t.id), t.name);
    StrCountsNothing(w, PutNum(b, t.id), t.name);
    assert b2.header == b.header;
    var b3 := SavePrereqs(b2, t.prereqs);
    PrereqsCount(b2, t.prereqs);
    CodeCounts(w, b3, t.code);
    DepsCount(SaveCode(w, b3, t.code), t.deps);
  }

  lemma StrCountsNothing(w: Width, b: Writer, s: Option<string>)
    ensures PutStr(w, b, s).header == b.header
  {
  }

  lemma {:induction false} AllCounted(w: Width, b: Writer, ts: seq<TargetImage>)
    ensures SaveEach(w, b, ts).header == Plus(b.header, CountedAll(w, ts))
  {
    hide SaveTarget, Counted;
    if ts != [] {
      AllCounted(w, b, ts[..|ts| - 1]);
      TargetCounts(w, SaveEach(w, b, ts[..|ts| - 1]), ts[|ts| - 1]);
    }
  }

  lemma OneFits(w: Width, t: TargetImage)
    ensures Arena(w, t) <= TargetSize(w, Counted(w, t))
  {
    hide CodeSize;
  }

  lemma NothingFits(w: Width)
    ensures TargetSize(w, NO_COUNTS) == 0
  {
  }

  lemma SizesAdd(w: Width, a: Header, b: Header)
    ensures TargetSize(w, Plus(a, b)) == TargetSize(w, a) + TargetSize(w, b)
  {
  }

  /** Counting prerequisites as targets covers them, because a target takes more room
      than a list of prerequisites with one entry. */
  lemma {:induction false} ArenaCovered(w: Width, ts: seq<TargetImage>)
    ensures ArenaAll(w, ts) <= TargetSize(w, CountedAll(w, ts))
  {
    hide Arena, Counted, TargetSize;
    if ts != [] {
      var init, last := ts[..|ts| - 1], ts[|ts| - 1];
      ArenaCovered(w, init);
      OneFits(w, last);
      SizesAdd(w, CountedAll(w, init), Counted(w, last));
    } else {
      NothingFits(w);
    }
  }

  /** The arena worked out from the header of a saved file covers everything that
      loading its targets allocates, although prerequisites are counted as targets
      and lists of prerequisites are not counted at all. */
  lemma ArenaSuffices(w: Width, b: Writer, ts: seq<TargetImage>)
    requires b.header == NO_COUNTS
    ensures TableSize(w, |ts|) + ArenaAll(w, ts) <= TargetSize(w, SaveTargets(w, b, ts).header)
  {
    hide SaveEach, ArenaAll, CountedAll;
    var b1 := PutNum(b, |ts|);
    AllCounted(w, b1.(header := b1.header.(ntarget := |ts|)), ts);
    ArenaCovered(w, ts);
    SizesAdd(w, NO_COUNTS.(ntarget := |ts|), CountedAll(w, ts));
  }

  // ------------------------------------------------------------------
  // The round trip
  // ------------------------------------------------------------------

  /** One more target. */
  lemma ReadNext(w: Width, r: Reader, r1: Reader, ts: seq<TargetImage>, n: nat, offs: nat, rest: seq<Item>)
    requires n < |ts| && LoadEach(w, r, n) == Got(AllNormal(ts[..n]), r1)
    requires r1.error == 0 && r1.dused == TableSize(w, |ts|) + ArenaAll(w, ts[..n])
    requires r1.dused + Arena(w, ts[n]) <= r1.dsize && r1.items == TargetItems(w, ts[n], offs) + rest
    requires HeldAt(r1.strings, offs, ts[n].name.GetOr("")) && Saveable(ts[n])
    ensures LoadEach(w, r, n + 1) == if Misaligned(w, ts, n) then Exited
                                     else Got(AllNormal(ts[..n + 1]),
                                              r1.(items := rest, dused := r1.dused + Arena(w, ts[n])))
  {
    hide LoadTarget, TargetItems, Arena, ArenaAll, PrereqArena, Misaligned, Normal, HeldAt, Saveable, TableSize;
    ReadTarget(w, r1, ts[n], offs, rest);
    AlignedIff(w, ts, n);
    assert AllNormal(ts[..n]) + [Normal(ts[n])] == AllNormal(ts[..n + 1]);
  }

  lemma {:induction false} ReadAll(w: Width, r: Reader, ts: seq<TargetImage>, k: nat, offs: seq<nat>, rest: seq<Item>)
    requires k <= |ts| == |offs| && r.error == 0 && r.dused == TableSize(w, |ts|)
    requires r.dused + ArenaAll(w, ts[..k]) <= r.dsize
    requires NamesHeld(r.strings, ts, offs) && forall i | 0 <= i < |ts| :: Saveable(ts[i])
    requires r.items == AllItems(w, ts[..k], offs[..k]) + rest
    ensures LoadEach(w, r, k) == if exists i | 0 <= i < k :: Misaligned(w, ts, i) then Exited
                                 else Got(AllNormal(ts[..k]),
                                          r.(items := rest, dused := r.dused + ArenaAll(w, ts[..k])))
  {
    hide LoadEach, TargetItems, Arena, Misaligned, AllNormal, HeldAt, Saveable, TableSize;
    if k == 0 {
      ReadNone(w, r);
      assert r.items == rest;
    } else {
      var n := k - 1;
      assert ts[..k][..n] == ts[..n] && offs[..k][..n] == offs[..n];
      assert AllItems(w, ts[..k], offs[..k]) == AllItems(w, ts[..n], offs[..n]) + TargetItems(w, ts[n], offs[n]);
      var more := TargetItems(w, ts[n], offs[n]) + rest;
      assert r.items == AllItems(w, ts[..n], offs[..n]) + more;
      ReadAll(w, r, ts, n, offs, more);
      if !exists i | 0 <= i < n :: Misaligned(w, ts, i) {
        var r1 := r.(items := more, dused := r.dused + ArenaAll(w, ts[..n]));
        ReadNext(w, r, r1, ts, n, offs[n], rest);
      } else {
        ReadStuck(w, r, n);
      }
    }
  }

  lemma ReadNone(w: Width, r: Reader)
    ensures LoadEach(w, r, 0) == Got([], r) && AllNormal([]) == []
  {
  }

  lemma ReadStuck(w: Width, r: Reader, n: nat)
    ensures LoadEach(w, r, n) == Exited ==> LoadEach(w, r, n + 1) == Exited
  {
  }

  /** What a saved file holds. */
  lemma Saved(w: Width, dsize: nat, ssize: nat, ts: seq<TargetImage>) returns (offs: seq<nat>)
    requires SaveTargets(w, NewWriter(w, dsize, ssize), ts).error == 0
    ensures |offs| == |ts|
    ensures var b := SaveTargets(w, NewWriter(w, dsize, ssize), ts);
            b.items == [Num(|ts|)] + AllItems(w, ts, offs) && NamesHeld(b.strings, ts, offs)
  {
    hide SaveEach, AllItems, HeldAt, AlignUp;
    var b0 := NewWriter(w, dsize, ssize);
    var b1 := PutNum(b0, |ts|);
    offs := WroteAll(w, b1.(header := b1.header.(ntarget := |ts|)), ts);
  }

  lemma NamesLater(strings: string, more: string, ts: seq<TargetImage>, offs: seq<nat>)
    requires NamesHeld(strings, ts, offs) && strings <= more
    ensures NamesHeld(more, ts, offs)
  {
    hide HeldAt;
    forall i | 0 <= i < |ts| ensures HeldAt(more, offs[i], ts[i].name.GetOr("")) {
      HeldLater(strings, more, offs[i], ts[i].name.GetOr(""));
    }
  }

  /** The round trip.  If the buffer has not run into an error, then loading the file
      gives back every target with its identifier, its name, its prerequisites, its
      code and its dependencies, whatever follows the targets in the file; a 64-bit
      host exits instead exactly if some code comes after an odd number of list
      entries. */
  lemma SaveThenLoad(w: Width, dsize: nat, ssize: nat, ts: seq<TargetImage>, r: Reader, rest: seq<Item>)
    requires forall i | 0 <= i < |ts| :: Saveable(ts[i])
    requires var b := SaveTargets(w, NewWriter(w, dsize, ssize), ts);
             && b.error == 0
             && r.items == b.items + rest && b.strings <= r.strings
             && r.dsize >= TargetSize(w, b.header) && r.dused == 0 && r.error == 0
    ensures LoadTargets(w, r)
         == if Loadable(w, ts)
            then Got(AllNormal(ts), r.(items := rest, dused := TableSize(w, |ts|) + ArenaAll(w, ts)))
            else Exited
  {
    hide SaveTargets, LoadEach, ArenaAll, AllItems, NamesHeld, Saveable, Misaligned, AlignUp, TableSize, TargetSize,
         NewWriter;
    var b := SaveTargets(w, NewWriter(w, dsize, ssize), ts);
    var offs := Saved(w, dsize, ssize, ts);
    FreshHeader(w, dsize, ssize);
    ArenaSuffices(w, NewWriter(w, dsize, ssize), ts);
    NamesLater(b.strings, r.strings, ts, offs);
    var items := AllItems(w, ts, offs) + rest;
    assert r.items == [Num(|ts|)] + items;
    ReadNum(r, |ts|, items);
    assert ts[..|ts|] == ts && offs[..|ts|] == offs;
    ReadAll(w, r.(items := items, dused := TableSize(w, |ts|)), ts, |ts|, offs, rest);
  }

  lemma FreshHeader(w: Width, dsize: nat, ssize: nat)
    ensures NewWriter(w, dsize, ssize).header == NO_COUNTS
  {
  }
}
