/** What the status of dres_save tells (src/compiler.c:615-700).  Sizes are worked
    out in bytes of the two buffers, so that a caller could check them before. */
module SaveStatus {
  import opened Ids
  import opened Words
  import opened Machine
  import opened Precompiled
  import opened RoundTrip
  import opened RuleFile
  import opened FileRoundTrip

  // ------------------------------------------------------------------
  // Bytes needed
  // ------------------------------------------------------------------

  /** Room in the table of strings. */
  function StrRoom(w: Width, s: Option<string>): nat {
    if s.GetOr("") == "" then 0 else AlignUp(w, |s.value| + 1)
  }

  function EntriesRoom(w: Width, es: seq<Entry>): nat {
    if es == [] then 0
    else EntriesRoom(w, es[..|es| - 1]) + if es[|es| - 1].Name? then StrRoom(w, es[|es| - 1].s) else 0
  }

  function CodeRoom(w: Width, code: Option<Image>): nat {
    if code.None? then 4 else 8 + CodeSize(w, code.value.cells)
  }

  function TargetRoom(w: Width, t: TargetImage): nat {
    12 + 4 * |t.prereqs.GetOr([])| + CodeRoom(w, t.code) + 4 + 4 * |t.deps.GetOr([])|
  }

  function TargetsRoom(w: Width, ts: seq<TargetImage>): (n: nat)
    ensures n >= 4
  {
    if ts == [] then 4 else TargetsRoom(w, ts[..|ts| - 1]) + TargetRoom(w, ts[|ts| - 1])
  }

  function NamesRoom(w: Width, ts: seq<TargetImage>): nat {
    if ts == [] then 0 else NamesRoom(w, ts[..|ts| - 1]) + StrRoom(w, ts[|ts| - 1].name)
  }

  /** The targets fit in buffers of a size; the table of strings begins with zeros. */
  predicate TargetsFit(w: Width, ts: seq<TargetImage>, size: nat) {
    TargetsRoom(w, ts) <= AlignUp(w, size) && w.Bytes() + NamesRoom(w, ts) <= AlignUp(w, size)
  }

  /** Everything fits. */
  predicate AllFits(w: Width, f: RuleSet, size: nat) {
    var es := RestEntries(f.rest);
    && TargetsRoom(w, f.targets) + 4 * |es| <= AlignUp(w, size)
    && w.Bytes() + NamesRoom(w, f.targets) + EntriesRoom(w, es) <= AlignUp(w, size)
  }

  // ------------------------------------------------------------------
  // Bytes taken
  // ------------------------------------------------------------------

  /** A part of saving that takes `d` bytes of data and `s` bytes of strings. */
  ghost predicate Takes(b: Writer, b1: Writer, d: nat, s: nat) {
    && b1.dsize == b.dsize && b1.ssize == b.ssize
    && (b1.error == 0 <==> b.error == 0 && b.dused + d <= b.dsize && |b.strings| + s <= b.ssize)
    && (b1.error == 0 ==> b1.dused == b.dused + d && |b1.strings| == |b.strings| + s)
    && (b.error == 0 && b1.error != 0 ==> b1.error == ENOMEM)
    && (b.error != 0 ==> b1.error == b.error)
  }

  ghost predicate InRoom(b: Writer) {
    b.error == 0 ==> b.dused <= b.dsize && |b.strings| <= b.ssize
  }

  lemma TakesBoth(b: Writer, b1: Writer, b2: Writer, d1: nat, s1: nat, d2: nat, s2: nat)
    requires Takes(b, b1, d1, s1) && Takes(b1, b2, d2, s2)
    ensures Takes(b, b2, d1 + d2, s1 + s2)
  {
  }

  lemma StaysInRoom(b: Writer, b1: Writer, d: nat, s: nat)
    requires Takes(b, b1, d, s)
    ensures InRoom(b1)
  {
  }

  lemma TakesHeader(b: Writer, b1: Writer, h: Header, h1: Header, d: nat, s: nat)
    requires Takes(b, b1, d, s)
    ensures Takes(b.(header := h), b1.(header := h1), d, s)
  {
  }

  lemma NumTakes(b: Writer, i: int)
    requires InRoom(b)
    ensures Takes(b, PutNum(b, i), 4, 0)
  {
  }

  lemma {:induction false} NumsTake(b: Writer, nums: seq<int>)
    requires InRoom(b)
    ensures Takes(b, PutNums(b, nums), 4 * |nums|, 0)
  {
    hide PutNum;
    if nums != [] {
      var init := nums[..|nums| - 1];
      NumsTake(b, init);
      StaysInRoom(b, PutNums(b, init), 4 * |init|, 0);
      NumTakes(PutNums(b, init), nums[|nums| - 1]);
      TakesBoth(b, PutNums(b, init), PutNums(b, nums), 4 * |init|, 0, 4, 0);
    }
  }

  lemma StrTakes(w: Width, b: Writer, s: Option<string>)
    requires InRoom(b)
    ensures Takes(b, PutStr(w, b, s), 4, StrRoom(w, s))
  {
    if s.GetOr("") != "" {
      AlignUpMore(w, |s.value| + 1);
    }
  }

  lemma {:induction false} EntriesTake(w: Width, b: Writer, es: seq<Entry>)
    requires InRoom(b)
    ensures Takes(b, PutAll(w, b, es), 4 * |es|, EntriesRoom(w, es))
  {
    hide PutNum, PutStr, StrRoom;
    if es != [] {
      var init, last := es[..|es| - 1], es[|es| - 1];
      EntriesTake(w, b, init);
      var b1 := PutAll(w, b, init);
      StaysInRoom(b, b1, 4 * |init|, EntriesRoom(w, init));
      match last {
        case Number(i) => NumTakes(b1, i);
        case Half(i) => NumTakes(b1, if b1.dsize - b1.dused < 8 then 0 else i);
        case Name(s) => StrTakes(w, b1, s);
      }
      TakesBoth(b, b1, PutAll(w, b, es), 4 * |init|, EntriesRoom(w, init), 4,
                if last.Name? then StrRoom(w, last.s) else 0);
    }
  }

  lemma PrereqsTake(b: Writer, prereqs: Option<seq<int>>)
    requires InRoom(b)
    ensures Takes(b, SavePrereqs(b, prereqs), 4 + 4 * |prereqs.GetOr([])|, 0)
  {
    hide PutNum, PutNums;
    var ids := prereqs.GetOr([]);
    var b1 := PutNum(b, |ids|);
    NumTakes(b, |ids|);
    StaysInRoom(b, b1, 4, 0);
    NumsTake(b1, ids);
    TakesBoth(b, b1, PutNums(b1, ids), 4, 0, 4 * |ids|, 0);
  }

  lemma CodeTakes(w: Width, b: Writer, code: Option<Image>)
    requires InRoom(b)
    ensures Takes(b, SaveCode(w, b, code), CodeRoom(w, code), 0)
  {
    hide CodeSize;
  }

  lemma DepsTake(b: Writer, deps: Option<seq<int>>)
    requires InRoom(b)
    ensures Takes(b, SaveDeps(b, deps), 4 + 4 * |deps.GetOr([])|, 0)
  {
    hide PutNum, PutNums;
    if deps.None? {
      NumTakes(b, 0);
    } else {
      var b1 := PutNum(b, |deps.value| + 1);
      NumTakes(b, |deps.value| + 1);
      StaysInRoom(b, b1, 4, 0);
      NumsTake(b1, deps.value);
      TakesBoth(b, b1, PutNums(b1, deps.value), 4, 0, 4 * |deps.value|, 0);
    }
  }

  lemma TargetTakes(w: Width, b: Writer, t: TargetImage)
    requires InRoom(b)
    ensures Takes(b, SaveTarget(w, b, t), TargetRoom(w, t), StrRoom(w, t.name))
  {
    hide PutNum, PutStr, SavePrereqs, SaveCode, SaveDeps, StrRoom, CodeRoom, Takes, InRoom;
    var b1 := PutNum(b, t.id);
    NumTakes(b, t.id);
    StaysInRoom(b, b1, 4, 0);
    var b2 := PutStr(w, b1, t.name);
    StrTakes(w, b1, t.name);
    TakesBoth(b, b1, b2, 4, 0, 4, StrRoom(w, t.name));
    StaysInRoom(b, b2, 8, StrRoom(w, t.name));
    var b3 := SavePrereqs(b2, t.prereqs);
    PrereqsTake(b2, t.prereqs);
    TakesBoth(b, b2, b3, 8, StrRoom(w, t.name), 4 + 4 * |t.prereqs.GetOr([])|, 0);
    StaysInRoom(b2, b3, 4 + 4 * |t.prereqs.GetOr([])|, 0);
    var b4 := SaveCode(w, b3, t.code);
    CodeTakes(w, b3, t.code);
    TakesBoth(b, b3, b4, 12 + 4 * |t.prereqs.GetOr([])|, StrRoom(w, t.name), CodeRoom(w, t.code), 0);
    StaysInRoom(b3, b4, CodeRoom(w, t.code), 0);
    DepsTake(b4, t.deps);
    TakesBoth(b, b4, SaveDeps(b4, t.deps), 12 + 4 * |t.prereqs.GetOr([])| + CodeRoom(w, t.code), StrRoom(w, t.name),
              4 + 4 * |t.deps.GetOr([])|, 0);
  }

  lemma {:induction false} EachTakes(w: Width, b: Writer, ts: seq<TargetImage>)
    requires InRoom(b)
    ensures Takes(b, SaveEach(w, b, ts), TargetsRoom(w, ts) - 4, NamesRoom(w, ts))
  {
    hide SaveTarget, TargetRoom, StrRoom;
    if ts != [] {
      var init, last := ts[..|ts| - 1], ts[|ts| - 1];
      EachTakes(w, b, init);
      var b1 := SaveEach(w, b, init);
      StaysInRoom(b, b1, TargetsRoom(w, init) - 4, NamesRoom(w, init));
      TargetTakes(w, b1, last);
      TakesBoth(b, b1, SaveEach(w, b, ts), TargetsRoom(w, init) - 4, NamesRoom(w, init), TargetRoom(w, last),
                StrRoom(w, last.name));
    }
  }

  lemma TargetsTake(w: Width, b: Writer, ts: seq<TargetImage>)
    requires InRoom(b)
    ensures Takes(b, SaveTargets(w, b, ts), TargetsRoom(w, ts), NamesRoom(w, ts))
  {
    hide SaveEach, TargetsRoom, NamesRoom, PutNum;
    var b1 := PutNum(b, |ts|);
    var b2 := b1.(header := b1.header.(ntarget := |ts|));
    NumTakes(b, |ts|);
    TakesHeader(b, b1, b.header, b2.header, 4, 0);
    StaysInRoom(b, b2, 4, 0);
    EachTakes(w, b2, ts);
    TakesBoth(b, b2, SaveTargets(w, b, ts), 4, 0, TargetsRoom(w, ts) - 4, NamesRoom(w, ts));
  }

  lemma {:induction false} RoomAdds(w: Width, a: seq<Entry>, b: seq<Entry>)
    ensures EntriesRoom(w, a + b) == EntriesRoom(w, a) + EntriesRoom(w, b)
  {
    hide StrRoom;
    if b == [] {
      assert a + b == a;
    } else {
      RoomAdds(w, a, b[..|b| - 1]);
      assert (a + b)[..|a + b| - 1] == a + b[..|b| - 1];
    }
  }

  /** One of the later sections, apart from what it counts. */
  lemma SectionTakes(w: Width, b: Writer, es: seq<Entry>, h: Header)
    requires InRoom(b)
    ensures var b1 := PutAll(w, b, es).(header := h);
            Takes(b, b1, 4 * |es|, EntriesRoom(w, es)) && InRoom(b1)
  {
    hide PutAll, EntriesRoom;
    EntriesTake(w, b, es);
    TakesHeader(b, PutAll(w, b, es), b.header, h, 4 * |es|, EntriesRoom(w, es));
    StaysInRoom(b, PutAll(w, b, es).(header := h), 4 * |es|, EntriesRoom(w, es));
  }

  lemma RestTakes(w: Width, b: Writer, f: Rest)
    requires InRoom(b)
    ensures Takes(b, SaveRest(w, b, f), 4 * |RestEntries(f)|, EntriesRoom(w, RestEntries(f)))
  {
    hide PutAll, EntriesRoom, Takes, InRoom, EachFactvar, EachDresvar, EachInit, EachMethod;
    var e1, e2, e3, e4 := FactvarsEntries(f.factvars), DresvarsEntries(f.dresvars), InitsEntries(f.inits),
                          MethodsEntries(f.methods);
    var b1 := SaveFactvars(w, b, f.factvars);
    SectionTakes(w, b, e1, b1.header);
    var b2 := SaveDresvars(w, b1, f.dresvars);
    SectionTakes(w, b1, e2, b2.header);
    var b3 := SaveInits(w, b2, f.inits);
    SectionTakes(w, b2, e3, b3.header);
    var b4 := SaveMethods(w, b3, f.methods);
    SectionTakes(w, b3, e4, b4.header);
    RoomAdds(w, e1, e2 + (e3 + e4));
    RoomAdds(w, e2, e3 + e4);
    RoomAdds(w, e3, e4);
    TakesBoth(b2, b3, b4, 4 * |e3|, EntriesRoom(w, e3), 4 * |e4|, EntriesRoom(w, e4));
    TakesBoth(b1, b2, b4, 4 * |e2|, EntriesRoom(w, e2), 4 * |e3| + 4 * |e4|, EntriesRoom(w, e3) + EntriesRoom(w, e4));
    TakesBoth(b, b1, b4, 4 * |e1|, EntriesRoom(w, e1), 4 * |e2| + (4 * |e3| + 4 * |e4|),
              EntriesRoom(w, e2) + (EntriesRoom(w, e3) + EntriesRoom(w, e4)));
  }

  // ------------------------------------------------------------------
  // The status
  // ------------------------------------------------------------------

  lemma NewInRoom(w: Width, size: nat)
    requires size > 0
    ensures var b := NewWriter(w, size, size);
            InRoom(b) && b.error == 0 && b.dused == 0 && |b.strings| == w.Bytes()
            && b.dsize == b.ssize == AlignUp(w, size)
  {
  }

  /** The targets are saved exactly if they fit, and everything is exactly if it fits. */
  lemma FitsIff(w: Width, size: nat, f: RuleSet)
    requires size > 0
    ensures Attempt(w, size, f).error == if TargetsFit(w, f.targets, size) then 0 else ENOMEM
    ensures Finished(w, size, f).error == 0 <==> AllFits(w, f, size)
    ensures AllFits(w, f, size) ==> TargetsFit(w, f.targets, size)
  {
    hide SaveTargets, SaveRest, NewWriter, AlignUp, EntriesRoom, TargetsRoom, NamesRoom, RestEntries;
    var b0, b := NewWriter(w, size, size), Attempt(w, size, f);
    NewInRoom(w, size);
    TargetsTake(w, b0, f.targets);
    StaysInRoom(b0, b, TargetsRoom(w, f.targets), NamesRoom(w, f.targets));
    RestTakes(w, b, f.rest);
  }

  lemma AlignMonotone(w: Width, a: nat, b: nat)
    requires a <= b
    ensures AlignUp(w, a) <= AlignUp(w, b)
  {
    match w
    case W32 => assert (a + 3) / 4 <= (b + 3) / 4;
    case W64 => assert (a + 7) / 8 <= (b + 7) / 8;
  }

  lemma FitsLarger(w: Width, ts: seq<TargetImage>, a: nat, b: nat)
    requires a <= b && TargetsFit(w, ts, a)
    ensures TargetsFit(w, ts, b)
  {
    hide AlignUp, TargetsRoom, NamesRoom;
    AlignMonotone(w, a, b);
  }

  /** The first of the sizes tried in which the targets fit. */
  function SizeFor(w: Width, ts: seq<TargetImage>, size: nat): Option<nat>
    requires size > 0
    decreases if size < MAX_SIZE then MAX_SIZE - size else 0
  {
    if TargetsFit(w, ts, size) then Some(size)
    else if size < MAX_SIZE then SizeFor(w, ts, 2 * size)
    else None
  }

  lemma {:induction false} SaveIs(w: Width, f: RuleSet, size: nat, writable: bool)
    requires size > 0
    ensures var (status, file) := Save(w, f, size, writable);
            && status == (if SizeFor(w, f.targets, size).Some? then 0 else ENOMEM)
            && (file.Some? <==> status == 0 && writable)
            && (file.Some? ==>
                  var s := SizeFor(w, f.targets, size).value;
                  && s > 0 && Attempt(w, s, f).error == 0
                  && var b := Finished(w, s, f);
                     file == Some(File(b.header, b.strings, b.items)))
    decreases if size < MAX_SIZE then MAX_SIZE - size else 0
  {
    hide TargetsFit, Attempt, Finished, AllFits;
    FitsIff(w, size, f);
    if !TargetsFit(w, f.targets, size) && size < MAX_SIZE {
      SaveIs(w, f, 2 * size, writable);
    }
  }

  /** The status tells no more than that the targets fit in buffers of a megabyte. */
  lemma SaveSucceeds(w: Width, f: RuleSet, writable: bool)
    ensures var (status, file) := Save(w, f, INITIAL_SIZE, writable);
            && (status == 0 <==> TargetsFit(w, f.targets, MAX_SIZE))
            && (status != 0 ==> status == ENOMEM && !file.Some?)
            && (status == 0 ==> (file.Some? <==> writable))
  {
    hide Save, TargetsFit;
    SaveIs(w, f, INITIAL_SIZE, writable);
    var ts := f.targets;
    assert SizeFor(w, ts, 16 * INITIAL_SIZE).Some? <==> TargetsFit(w, ts, MAX_SIZE);
    forall k | k == 8 * INITIAL_SIZE || k == 4 * INITIAL_SIZE || k == 2 * INITIAL_SIZE || k == INITIAL_SIZE
      ensures TargetsFit(w, ts, k) ==> TargetsFit(w, ts, MAX_SIZE)
    {
      if TargetsFit(w, ts, k) {
        FitsLarger(w, ts, k, MAX_SIZE);
      }
    }
    assert SizeFor(w, ts, 8 * INITIAL_SIZE).Some? <==> TargetsFit(w, ts, MAX_SIZE);
    assert SizeFor(w, ts, 4 * INITIAL_SIZE).Some? <==> TargetsFit(w, ts, MAX_SIZE);
    assert SizeFor(w, ts, 2 * INITIAL_SIZE).Some? <==> TargetsFit(w, ts, MAX_SIZE);
  }

  /** A save that reports success has left a complete file exactly if the rest fits as
      well, in the size that was large enough for the targets. */
  lemma SaveComplete(w: Width, f: RuleSet, errno: int)
    requires f.rest.methods != [] && Savable(f) && Loadable(w, f.targets)
    ensures var (status, file) := Save(w, f, INITIAL_SIZE, true);
            status == 0 ==>
              && file.Some? && SizeFor(w, f.targets, INITIAL_SIZE).Some?
              && var l := LoadFile(w, file.value, errno);
              (l.Got? && l.val == NormalSet(f)) <==> AllFits(w, f, SizeFor(w, f.targets, INITIAL_SIZE).value)
  {
    hide Save, TargetsFit, Attempt, Finished, AllFits, SizeFor, LoadFile, Savable, Loadable, NormalSet;
    SaveIs(w, f, INITIAL_SIZE, true);
    var size := SizeFor(w, f.targets, INITIAL_SIZE);
    if size.Some? {
      FitsIff(w, size.value, f);
      CompleteIff(w, size.value, f, errno);
    }
  }

  // ------------------------------------------------------------------
  // An input
  // ------------------------------------------------------------------

  const MANY := 3000
  const STEM := "resource_policy_fact"

  function Digit(d: nat): char
    requires d < 10
  {
    ('0' as int + d) as char
  }

  /** The stem and four digits: a name the lexer accepts (src/lexer.l:381-383). */
  function NameOf(i: nat): string
    requires i < MANY
  {
    STEM + [Digit(i / 10 / 10 / 10), Digit(i / 10 / 10 % 10), Digit(i / 10 % 10), Digit(i % 10)]
  }

  function VariableId(i: nat): int
    requires i < MANY
  {
    Pack(Id(FactVar, i, false, false))
  }

  /** The fact variables, which occur as prerequisites. */
  function Many(n: nat): seq<FactvarImage>
    requires n <= MANY
  {
    seq(n, i requires 0 <= i < n => FactvarImage(VariableId(i), Some(NameOf(i)), 1))
  }

  /** The builtin methods (src/builtin.c:54-63). */
  function Builtins(): seq<MethodImage> {
    [MethodImage(0, Some("dres")), MethodImage(1, Some("resolve")), MethodImage(2, Some("echo")),
     MethodImage(3, Some("fact")), MethodImage(4, Some("shell")), MethodImage(5, Some("regexp_read")),
     MethodImage(6, Some("fail"))]
  }

  /** One target without actions, which needs 3000 fact variables. */
  function ManyFacts(): RuleSet {
    var ids := seq(MANY, i requires 0 <= i < MANY => VariableId(i));
    var all := Pack(Id(Target, 0, false, false));
    RuleSet([TargetImage(all, Some("all"), Some(ids), None, Some(ids + [all]))], Rest(Many(MANY), [], [], Builtins()))
  }

  lemma Tens(i: nat, j: nat)
    ensures i % 10 == j % 10 && i / 10 == j / 10 ==> i == j
  {
    assert i == 10 * (i / 10) + i % 10 && j == 10 * (j / 10) + j % 10;
  }

  lemma SameDigits(i: nat, j: nat)
    requires i < MANY && j < MANY && i % 10 == j % 10 && i / 10 % 10 == j / 10 % 10
    requires i / 10 / 10 % 10 == j / 10 / 10 % 10 && i / 10 / 10 / 10 == j / 10 / 10 / 10
    ensures i == j
  {
    Tens(i, j);
    Tens(i / 10, j / 10);
    Tens(i / 10 / 10, j / 10 / 10);
  }

  lemma DigitsIn(i: nat)
    requires i < MANY
    ensures NameOf(i)[20] == Digit(i / 10 / 10 / 10) && NameOf(i)[21] == Digit(i / 10 / 10 % 10)
    ensures NameOf(i)[22] == Digit(i / 10 % 10) && NameOf(i)[23] == Digit(i % 10)
    ensures |NameOf(i)| == 24 && NoNul(NameOf(i))
  {
    assert |STEM| == 20 && NoNul(STEM);
  }

  lemma DigitOnce(a: nat, b: nat)
    requires a < 10 && b < 10 && Digit(a) == Digit(b)
    ensures a == b
  {
    assert Digit(a) as int == '0' as int + a && Digit(b) as int == '0' as int + b;
  }

  lemma NamesDiffer(i: nat, j: nat)
    requires i < j < MANY
    ensures NameOf(i) != NameOf(j)
  {
    hide NameOf, Digit;
    DigitsIn(i);
    DigitsIn(j);
    if NameOf(i) == NameOf(j) {
      DigitOnce(i / 10 / 10 / 10, j / 10 / 10 / 10);
      DigitOnce(i / 10 / 10 % 10, j / 10 / 10 % 10);
      DigitOnce(i / 10 % 10, j / 10 % 10);
      DigitOnce(i % 10, j % 10);
      SameDigits(i, j);
    }
  }

  /** Saving the rules succeeds, and leaves a file that does not load back, although the
      names are distinct and short. */
  lemma SaveTruncates(w: Width, errno: int)
    ensures var (status, file) := Save(w, ManyFacts(), INITIAL_SIZE, true);
            status == 0 && file.Some?
            && var l := LoadFile(w, file.value, errno);
            !(l.Got? && l.val == NormalSet(ManyFacts()))
    ensures forall i, j | 0 <= i < j < MANY ::
              var vs := ManyFacts().rest.factvars; vs[i].name != vs[j].name && |vs[i].name.value| == 24
  {
    var f := ManyFacts();
    hide Save, LoadFile, NormalSet, TargetsFit, AllFits, Savable, Loadable, ManyFacts, NameOf;
    ManyFit(w);
    ManySavable(w);
    assert SizeFor(w, f.targets, INITIAL_SIZE) == Some(INITIAL_SIZE);
    SaveIs(w, f, INITIAL_SIZE, true);
    SaveComplete(w, f, errno);
    forall i, j | 0 <= i < j < MANY
      ensures ManyFacts().rest.factvars[i].name != ManyFacts().rest.factvars[j].name
              && |ManyFacts().rest.factvars[i].name.value| == 24
    {
      NamesDiffer(i, j);
      DigitsIn(i);
      ManyAre(i);
      ManyAre(j);
    }
  }

  lemma ManyAre(i: nat)
    requires i < MANY
    ensures |ManyFacts().rest.factvars| == MANY
    ensures ManyFacts().rest.factvars[i] == FactvarImage(VariableId(i), Some(NameOf(i)), 1)
  {
  }

  /** The targets fit, and the names of the variables do not. */
  lemma ManyFit(w: Width)
    ensures TargetsFit(w, ManyFacts().targets, INITIAL_SIZE) && !AllFits(w, ManyFacts(), INITIAL_SIZE)
  {
    var f := ManyFacts();
    assert f.targets[..0] == [];
    assert TargetsRoom(w, f.targets) == 4 + TargetRoom(w, f.targets[0]);
    assert NamesRoom(w, f.targets) == StrRoom(w, Some("all"));
    var names := FactvarsEntries(f.rest.factvars);
    var more := DresvarsEntries([]) + (InitsEntries([]) + MethodsEntries(Builtins()));
    assert RestEntries(f.rest) == names + more;
    assert f.rest.factvars == Many(MANY) && |Many(MANY)| == MANY;
    hide EachFactvar, ManyFacts, Many;
    RoomAdds(w, names, more);
    RoomAdds(w, [Number(MANY)], EachFactvar(Many(MANY)));
    NamesNeed(w, MANY);
  }

  /** Every name takes 28 bytes at least. */
  lemma {:induction false} NamesNeed(w: Width, n: nat)
    requires n <= MANY
    ensures EntriesRoom(w, EachFactvar(Many(n))) >= 28 * n
  {
    hide EntriesRoom, NameOf;
    if n > 0 {
      var v := Many(n)[n - 1];
      assert Many(n)[..n - 1] == Many(n - 1);
      NamesNeed(w, n - 1);
      RoomAdds(w, EachFactvar(Many(n - 1)), FactvarEntries(v));
      DigitsIn(n - 1);
      NameNeeds(w, v);
    }
  }

  lemma NameNeeds(w: Width, v: FactvarImage)
    requires v.name.Some? && |v.name.value| == 24
    ensures EntriesRoom(w, FactvarEntries(v)) >= 28
  {
    var es := FactvarEntries(v);
    assert es[..2] == [Number(v.id), Name(v.name)] && es[..2][..1] == [Number(v.id)] && es[..1][..0] == [];
  }

  lemma {:induction false} ManyClean(n: nat)
    requires n <= MANY
    ensures Clean(EachFactvar(Many(n)))
  {
    hide NameOf, NoNul;
    if n > 0 {
      var v := Many(n)[n - 1];
      assert Many(n)[..n - 1] == Many(n - 1);
      ManyClean(n - 1);
      DigitsIn(n - 1);
      CleanBoth(EachFactvar(Many(n - 1)), FactvarEntries(v));
    }
  }

  lemma {:induction false} MethodsClean(ms: seq<MethodImage>)
    requires forall i | 0 <= i < |ms| :: NoNul(ms[i].name.GetOr(""))
    ensures Clean(EachMethod(ms))
  {
    hide NoNul;
    if ms != [] {
      MethodsClean(ms[..|ms| - 1]);
      CleanBoth(EachMethod(ms[..|ms| - 1]), MethodEntries(ms[|ms| - 1]));
    }
  }

  lemma BuiltinsClean()
    ensures Clean(EachMethod(Builtins()))
  {
    hide EachMethod;
    MethodsClean(Builtins());
  }

  lemma ManySavable(w: Width)
    ensures Savable(ManyFacts()) && Loadable(w, ManyFacts().targets)
  {
    var f := ManyFacts();
    assert NoNul("all");
    assert Saveable(f.targets[0]);
    hide EachFactvar, NameOf, NoNul, Saveable, ManyFacts, Many, Builtins, EachMethod;
    ManyClean(MANY);
    BuiltinsClean();
    var methods, more := MethodsEntries(Builtins()), InitsEntries([]) + MethodsEntries(Builtins());
    CleanBoth([Number(|Builtins()|)], EachMethod(Builtins()));
    CleanBoth(InitsEntries([]), methods);
    CleanBoth(DresvarsEntries([]), more);
    CleanBoth([Number(|f.rest.factvars|)], EachFactvar(f.rest.factvars));
    CleanBoth(FactvarsEntries(f.rest.factvars), DresvarsEntries([]) + more);
  }
}
