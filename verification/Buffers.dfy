/** The buffer as it works (src/compiler.c:982-1306), the loops that fill and empty it
    (src/target.c:262-413, src/factvar.c:169-210, src/dresvar.c:162-201,
    src/compiler.c:707-974), and the save that tries larger and larger buffers.  Each
    method is proved to do what `Precompiled` and `RuleFile` say. */
module Buffers {
  import opened Words
  import opened Machine
  import opened Precompiled
  import opened RuleFile

  /** dres_buf_t while saving. */
  class SaveBuffer {
    const w: Width
    const dsize: nat
    const ssize: nat
    var items: seq<Item>
    var dused: nat
    var strings: string
    var error: int
    var header: Header

    ghost function View(): Writer
      reads this
    {
      Writer(items, dused, dsize, strings, ssize, error, header)
    }

    /** dres_buf_create. */
    constructor (width: Width, data: nat, table: nat)
      ensures w == width && View() == NewWriter(width, data, table)
    {
      w, dsize, ssize := width, AlignUp(width, data), AlignUp(width, table);
      items, dused, strings, error, header := [], 0, Zeros(width.Bytes()), 0, NO_COUNTS;
    }

    /** dres_buf_alloc and the assignment to what it returns. */
    method Store(size: nat, item: Item)
      modifies this`items, this`dused, this`error
      ensures View() == Put(old(View()), size, item)
    {
      if error != 0 {
        return;
      }
      if dsize - dused < size {
        error := ENOMEM;
      } else {
        dused := dused + size;
        items := items + [item];
      }
    }

    method WriteNum(i: int)
      modifies this`items, this`dused, this`error
      ensures View() == PutNum(old(View()), i)
    {
      Store(4, Num(i));
    }

    /** dres_buf_stralloc and dres_buf_wstr. */
    method WriteStr(s: Option<string>)
      modifies this`items, this`dused, this`error, this`strings
      ensures View() == PutStr(w, old(View()), s)
    {
      if error != 0 {
        return;
      }
      var offs := 0;
      if s.Some? && s.value != "" {
        var size := AlignUp(w, |s.value| + 1);
        if ssize - |strings| < size {
          error := ENOMEM;
          return;
        }
        offs := |strings|;
        strings := strings + s.value + Zeros(size - |s.value|);
      }
      WriteNum(offs);
    }

    method WriteNums(nums: seq<int>)
      modifies this`items, this`dused, this`error
      ensures View() == PutNums(old(View()), nums)
    {
      for j := 0 to |nums|
        invariant View() == PutNums(old(View()), nums[..j])
      {
        assert nums[..j + 1][..j] == nums[..j];
        WriteNum(nums[j]);
      }
      assert nums[..|nums|] == nums;
    }

    /** The prerequisites of a target; each of them counts as a target. */
    method WritePrereqs(prereqs: Option<seq<int>>)
      modifies this
      ensures View() == SavePrereqs(old(View()), prereqs)
    {
      var ids := prereqs.GetOr([]);
      WriteNum(|ids|);
      WriteNums(ids);
      header := header.(ntarget := header.ntarget + |ids|);
    }

    method WriteCode(code: Option<Image>)
      modifies this
      ensures View() == SaveCode(w, old(View()), code)
    {
      if code.None? {
        WriteNum(0);
        return;
      }
      var size := CodeSize(w, code.value.cells);
      WriteNum(code.value.ninstr);
      WriteNum(size);
      Store(size, Block(code.value.cells));
      header := header.(ncode := header.ncode + 1, sinstr := header.sinstr + size);
    }

    method WriteDeps(deps: Option<seq<int>>)
      modifies this
      ensures View() == SaveDeps(old(View()), deps)
    {
      if deps.None? {
        WriteNum(0);
        return;
      }
      WriteNum(|deps.value| + 1);
      WriteNums(deps.value);
      header := header.(ndependency := header.ndependency + |deps.value| + 1);
    }

    /** dres_save_targets. */
    method WriteTargets(ts: seq<TargetImage>) returns (status: int)
      modifies this
      ensures View() == SaveTargets(w, old(View()), ts) && status == View().error
    {
      hide SavePrereqs, SaveCode, SaveDeps, PutStr;
      WriteNum(|ts|);
      header := header.(ntarget := |ts|);
      ghost var b := View();
      for i := 0 to |ts|
        invariant View() == SaveEach(w, b, ts[..i])
      {
        assert ts[..i + 1][..i] == ts[..i];
        WriteNum(ts[i].id);
        WriteStr(ts[i].name);
        WritePrereqs(ts[i].prereqs);
        WriteCode(ts[i].code);
        WriteDeps(ts[i].deps);
      }
      assert ts[..|ts|] == ts;
      return error;
    }

    // ----------------------------------------------------------------
    // The later sections
    // ----------------------------------------------------------------

    /** dres_save_factvars. */
    method WriteFactvars(vs: seq<FactvarImage>)
      modifies this
      ensures View() == SaveFactvars(w, old(View()), vs)
    {
      hide PutEntry, PutNum, PutStr, PutAll;
      ghost var b := View();
      WriteNum(|vs|);
      header := header.(nvariable := header.nvariable + |vs|);
      ghost var h := header;
      PutOne(w, b, Number(|vs|));
      PutHeader(w, b, h, [Number(|vs|)]);
      assert [Number(|vs|)] + EachFactvar(vs[..0]) == [Number(|vs|)];
      for i := 0 to |vs|
        invariant View() == PutAll(w, b.(header := h), [Number(|vs|)] + EachFactvar(vs[..i])) && header == h
      {
        PutThree(w, b.(header := h), [Number(|vs|)] + EachFactvar(vs[..i]), Number(vs[i].id), Name(vs[i].name),
                 Number(vs[i].flags));
        assert vs[..i + 1][..i] == vs[..i];
        assert [Number(|vs|)] + EachFactvar(vs[..i + 1])
            == [Number(|vs|)] + EachFactvar(vs[..i]) + [Number(vs[i].id), Name(vs[i].name), Number(vs[i].flags)];
        WriteNum(vs[i].id);
        WriteStr(vs[i].name);
        WriteNum(vs[i].flags);
      }
      assert vs[..|vs|] == vs;
      PutHeader(w, b, h, [Number(|vs|)] + EachFactvar(vs));
    }

    /** dres_save_dresvars. */
    method WriteDresvars(vs: seq<DresvarImage>)
      modifies this
      ensures View() == SaveDresvars(w, old(View()), vs)
    {
      hide PutEntry, PutNum, PutStr, PutAll;
      ghost var b := View();
      WriteNum(|vs|);
      header := header.(nvariable := header.nvariable + |vs|);
      ghost var h := header;
      PutOne(w, b, Number(|vs|));
      PutHeader(w, b, h, [Number(|vs|)]);
      assert [Number(|vs|)] + EachDresvar(vs[..0]) == [Number(|vs|)];
      for i := 0 to |vs|
        invariant View() == PutAll(w, b.(header := h), [Number(|vs|)] + EachDresvar(vs[..i])) && header == h
      {
        PutTwo(w, b.(header := h), [Number(|vs|)] + EachDresvar(vs[..i]), Number(vs[i].id), Name(vs[i].name));
        assert vs[..i + 1][..i] == vs[..i];
        assert [Number(|vs|)] + EachDresvar(vs[..i + 1])
            == [Number(|vs|)] + EachDresvar(vs[..i]) + [Number(vs[i].id), Name(vs[i].name)];
        WriteNum(vs[i].id);
        WriteStr(vs[i].name);
      }
      assert vs[..|vs|] == vs;
      PutHeader(w, b, h, [Number(|vs|)] + EachDresvar(vs));
    }

    /** dres_buf_wdbl: takes the room for two numbers, and then writes them. */
    method WriteDbl(d: real)
      modifies this`items, this`dused, this`error
      ensures View() == PutNum(PutEntry(w, old(View()), Half(Whole(d))), Thousandths(d))
    {
      Store(4, Num(0));
      Store(4, Num(0));
      if error == 0 {
        items := items[..|items| - 2] + [Num(Whole(d)), Num(Thousandths(d))];
      }
    }

    /** The switch over the types of values. */
    method WriteValue(v: InitValue)
      modifies this`items, this`dused, this`error, this`strings
      ensures View() == PutAll(w, old(View()), Payload(v))
    {
      hide PutNum, PutStr;
      match v {
        case OfInt(i) =>
          PutOne(w, View(), Number(i));
          WriteNum(i);
        case OfDresVar(id) =>
          PutOne(w, View(), Number(id));
          WriteNum(id);
        case OfStr(t) =>
          PutOne(w, View(), Name(t));
          WriteStr(t);
        case OfDbl(d) =>
          PutTwo(w, View(), [], Half(Whole(d)), Number(Thousandths(d)));
          assert [] + Payload(v) == Payload(v);
          WriteDbl(d);
        case OfOther(_) =>
      }
    }

    method WriteField(f: FieldImage)
      modifies this`items, this`dused, this`error, this`strings
      ensures View() == PutAll(w, old(View()), FieldEntries(f))
    {
      hide PutNum, PutStr, Payload;
      ghost var b := View();
      PutTwo(w, b, [], Name(f.name), Number(Tag(f.value)));
      assert [] + [Name(f.name), Number(Tag(f.value))] == [Name(f.name), Number(Tag(f.value))];
      WriteStr(f.name);
      WriteNum(Tag(f.value));
      WriteValue(f.value);
      PutBoth(w, b, [Name(f.name), Number(Tag(f.value))], Payload(f.value));
    }

    method WriteInit(init: InitImage)
      modifies this
      ensures View() == PutAll(w, old(View()), InitEntries(init)).(header := header)
      ensures header == old(header).(nfield := old(header).nfield + |init.fields|)
    {
      hide PutEntry, PutNum, PutStr, PutAll, FieldEntries;
      ghost var b := View();
      var fs := init.fields;
      ghost var start := [Number(init.variable), Number(|fs|)];
      PutTwo(w, b, [], Number(init.variable), Number(|fs|));
      assert [] + start == start;
      WriteNum(init.variable);
      WriteNum(|fs|);
      PutNothing(w, b);
      assert start + EachField(fs[..0]) == start;
      for j := 0 to |fs|
        invariant View() == PutAll(w, b, start + EachField(fs[..j]))
        modifies this`items, this`dused, this`error, this`strings
      {
        PutBoth(w, b, start + EachField(fs[..j]), FieldEntries(fs[j]));
        assert fs[..j + 1][..j] == fs[..j];
        assert start + EachField(fs[..j + 1]) == start + EachField(fs[..j]) + FieldEntries(fs[j]);
        WriteField(fs[j]);
      }
      assert fs[..|fs|] == fs;
      PutKeepsHeader(w, b, InitEntries(init));
      header := header.(nfield := header.nfield + |fs|);
    }

    /** save_initializers. */
    method WriteInits(inits: seq<InitImage>)
      modifies this
      ensures View() == SaveInits(w, old(View()), inits)
    {
      hide PutEntry, PutNum, PutStr, PutAll, InitEntries;
      ghost var b := View();
      WriteNum(|inits|);
      PutOne(w, b, Number(|inits|));
      header := header.(ninit := |inits|);
      ghost var h := header;
      PutHeader(w, b, h, [Number(|inits|)]);
      assert [Number(|inits|)] + EachInit(inits[..0]) == [Number(|inits|)];
      for i := 0 to |inits|
        invariant header == h.(nfield := h.nfield + FieldCount(inits[..i]))
        invariant View() == PutAll(w, b, [Number(|inits|)] + EachInit(inits[..i])).(header := header)
      {
        ghost var done := [Number(|inits|)] + EachInit(inits[..i]);
        assert inits[..i + 1][..i] == inits[..i];
        assert [Number(|inits|)] + EachInit(inits[..i + 1]) == done + InitEntries(inits[i]);
        PutBoth(w, b, done, InitEntries(inits[i]));
        PutHeader(w, PutAll(w, b, done), header, InitEntries(inits[i]));
        WriteInit(inits[i]);
      }
      assert inits[..|inits|] == inits;
    }

    /** save_methods. */
    method WriteMethods(ms: seq<MethodImage>)
      modifies this
      ensures View() == SaveMethods(w, old(View()), ms)
    {
      hide PutEntry, PutNum, PutStr, PutAll;
      ghost var b := View();
      WriteNum(|ms|);
      header := header.(nmethod := |ms|);
      ghost var h := header;
      PutOne(w, b, Number(|ms|));
      PutHeader(w, b, h, [Number(|ms|)]);
      assert [Number(|ms|)] + EachMethod(ms[..0]) == [Number(|ms|)];
      for i := 0 to |ms|
        invariant View() == PutAll(w, b.(header := h), [Number(|ms|)] + EachMethod(ms[..i])) && header == h
      {
        PutTwo(w, b.(header := h), [Number(|ms|)] + EachMethod(ms[..i]), Number(ms[i].id), Name(ms[i].name));
        assert ms[..i + 1][..i] == ms[..i];
        assert [Number(|ms|)] + EachMethod(ms[..i + 1])
            == [Number(|ms|)] + EachMethod(ms[..i]) + [Number(ms[i].id), Name(ms[i].name)];
        WriteNum(ms[i].id);
        WriteStr(ms[i].name);
      }
      assert ms[..|ms|] == ms;
      PutHeader(w, b, h, [Number(|ms|)] + EachMethod(ms));
    }
  }

  /** dres_save: tries again with buffers twice the size if the targets do not fit. */
  method SaveRules(w: Width, f: RuleSet, writable: bool) returns (status: int, file: Option<File>)
    ensures (status, file) == Save(w, f, INITIAL_SIZE, writable)
  {
    hide SaveTargets, SaveRest, NewWriter;
    var size := INITIAL_SIZE;
    while true
      invariant size > 0 && Save(w, f, size, writable) == Save(w, f, INITIAL_SIZE, writable)
      decreases if size < MAX_SIZE then MAX_SIZE - size else 0
    {
      var buf := new SaveBuffer(w, size, size);
      status := buf.WriteTargets(f.targets);
      if status == 0 {
        SaveLater(buf, f.rest);
        return 0, if writable then Some(File(buf.header, buf.strings, buf.items)) else None;
      }
      if status != ENOMEM || size >= MAX_SIZE {
        return status, None;
      }
      size := size * 2;
    }
  }

  method SaveLater(buf: SaveBuffer, f: Rest)
    modifies buf
    ensures buf.View() == SaveRest(buf.w, old(buf.View()), f)
  {
    hide SaveFactvars, SaveDresvars, SaveInits, SaveMethods;
    buf.WriteFactvars(f.factvars);
    buf.WriteDresvars(f.dresvars);
    buf.WriteInits(f.inits);
    buf.WriteMethods(f.methods);
  }

  lemma PutNothing(w: Width, b: Writer)
    ensures PutAll(w, b, []) == b
  {
  }

  lemma PutOne(w: Width, b: Writer, e: Entry)
    ensures PutAll(w, b, [e]) == PutEntry(w, b, e)
    ensures e.Number? ==> PutAll(w, b, [e]) == PutNum(b, e.i)
    ensures e.Name? ==> PutAll(w, b, [e]) == PutStr(w, b, e.s)
  {
    assert [e][..0] == [];
  }

  lemma {:induction false} PutBoth(w: Width, b: Writer, x: seq<Entry>, y: seq<Entry>)
    ensures PutAll(w, b, x + y) == PutAll(w, PutAll(w, b, x), y)
  {
    hide PutEntry;
    if y == [] {
      assert x + y == x;
    } else {
      PutBoth(w, b, x, y[..|y| - 1]);
      assert (x + y)[..|x + y| - 1] == x + y[..|y| - 1];
    }
  }

  lemma PutTwo(w: Width, b: Writer, es: seq<Entry>, x: Entry, y: Entry)
    ensures PutAll(w, b, es + [x, y]) == PutEntry(w, PutEntry(w, PutAll(w, b, es), x), y)
    ensures x.Number? && y.Number? ==> PutAll(w, b, es + [x, y]) == PutNum(PutNum(PutAll(w, b, es), x.i), y.i)
    ensures x.Number? && y.Name? ==> PutAll(w, b, es + [x, y]) == PutStr(w, PutNum(PutAll(w, b, es), x.i), y.s)
    ensures x.Name? && y.Number? ==> PutAll(w, b, es + [x, y]) == PutNum(PutStr(w, PutAll(w, b, es), x.s), y.i)
    ensures es == [] ==> PutAll(w, b, es) == b
  {
    hide PutNum, PutStr;
    assert (es + [x, y])[..|es| + 1] == es + [x];
    assert (es + [x])[..|es|] == es;
  }

  lemma PutThree(w: Width, b: Writer, es: seq<Entry>, x: Entry, y: Entry, z: Entry)
    requires x.Number? && y.Name? && z.Number?
    ensures PutAll(w, b, es + [x, y, z]) == PutNum(PutStr(w, PutNum(PutAll(w, b, es), x.i), y.s), z.i)
  {
    hide PutNum, PutStr;
    PutTwo(w, b, es, x, y);
    assert (es + [x, y, z])[..|es| + 2] == es + [x, y];
  }

  lemma EntryHeader(w: Width, b: Writer, h: Header, e: Entry)
    ensures PutEntry(w, b.(header := h), e) == PutEntry(w, b, e).(header := h)
  {
  }

  /** Writing has nothing to do with the header. */
  lemma {:induction false} PutHeader(w: Width, b: Writer, h: Header, es: seq<Entry>)
    ensures PutAll(w, b.(header := h), es) == PutAll(w, b, es).(header := h)
  {
    hide PutEntry;
    if es != [] {
      PutHeader(w, b, h, es[..|es| - 1]);
      EntryHeader(w, PutAll(w, b, es[..|es| - 1]), h, es[|es| - 1]);
    }
  }

  lemma PutKeepsHeader(w: Width, b: Writer, es: seq<Entry>)
    ensures PutAll(w, b, es).header == b.header
  {
    PutHeader(w, b, b.header, es);
  }

  /** How a part of loading ends, if not well. */
  datatype Outcome = Fine | Error(err: int) | Exits

  /** dres_buf_t while loading. */
  class LoadBuffer {
    const w: Width
    const dsize: nat
    const strings: string
    const errno: int
    var items: seq<Item>
    var dused: nat
    var error: int

    ghost function View(): Reader
      reads this
    {
      Reader(items, dused, dsize, strings, error, errno)
    }

    constructor (width: Width, r: Reader)
      ensures w == width && View() == r
    {
      w, dsize, strings, errno := width, r.dsize, r.strings, r.errno;
      items, dused, error := r.items, r.dused, r.error;
    }

    /** What the result of a part of loading says about the buffer. */
    ghost predicate Shows<T>(o: Outcome, val: T, l: Load<T>)
      reads this
    {
      match l
      case Got(v, r) => o == Fine && val == v && View() == r
      case Broken(err) => o == Error(err)
      case Exited => o == Exits
    }

    /** dres_buf_alloc. */
    method Take(size: nat) returns (o: Outcome)
      modifies this`dused, this`error
      ensures Shows(o, (), Alloc(old(View()), size))
    {
      if error != 0 {
        return Error(ENOMEM);
      }
      if dsize - dused < size {
        error := ENOMEM;
        return Error(ENOMEM);
      }
      dused := dused + size;
      return Fine;
    }

    /** dres_buf_rs32. */
    method ReadNum() returns (i: int)
      modifies this`items, this`error
      ensures (i, View()) == GetNum(old(View()))
    {
      if items == [] || !items[0].Num? {
        error := errno;
        return 0;
      }
      i := items[0].i;
      items := items[1..];
    }

    method ReadNums(n: nat) returns (nums: seq<int>)
      modifies this`items, this`error
      ensures (nums, View()) == GetNums(old(View()), n)
    {
      nums := [];
      for j := 0 to n
        invariant (nums, View()) == GetNums(old(View()), j)
      {
        var i := ReadNum();
        nums := nums + [i];
      }
    }

    /** dres_buf_rstr. */
    method ReadStr() returns (s: Option<string>)
      modifies this`items, this`error
      ensures (s, View()) == GetStr(old(View()))
    {
      if items == [] || !items[0].Num? {
        error := errno;
        return None;
      }
      var offs := items[0].i;
      items := items[1..];
      if offs < 0 || offs > |strings| {
        error := EOVERFLOW;
        return None;
      }
      return Some(StringAt(strings, offs));
    }

    method ReadPrereqs() returns (o: Outcome, prereqs: Option<seq<int>>)
      modifies this
      ensures Shows(o, prereqs, LoadPrereqs(w, old(View())))
    {
      prereqs := None;
      var n := ReadNum();
      if n <= 0 {
        return Fine, None;
      }
      o := Take(SizePrereq(w));
      if o != Fine {
        return;
      }
      o := Take(4 * n);
      if o != Fine {
        return;
      }
      var ids := ReadNums(n);
      prereqs := Some(ids);
    }

    method ReadCode() returns (o: Outcome, code: Option<Image>)
      modifies this
      ensures Shows(o, code, LoadCode(w, old(View())))
    {
      code := None;
      var n := ReadNum();
      if n <= 0 {
        return Fine, None;
      }
      var at := dused;
      o := Take(SizeChunk(w));
      if o != Fine {
        return;
      }
      if at % w.Bytes() != 0 {
        return Exits, None;
      }
      var size := ReadNum();
      if size < 0 {
        return Error(ENOMEM), None;
      }
      o := Take(size);
      if o != Fine {
        return;
      }
      if items == [] || !items[0].Block? {
        error := errno;
        return Fine, Some(Image(n, []));
      }
      code := Some(Image(n, items[0].cells));
      items := items[1..];
    }

    method ReadDeps() returns (o: Outcome, deps: Option<seq<int>>)
      modifies this
      ensures Shows(o, deps, LoadDeps(old(View())))
    {
      deps := None;
      var n := ReadNum();
      if n <= 0 {
        return Fine, None;
      }
      o := Take(4 * n);
      if o != Fine {
        return;
      }
      var ids := ReadNums(n - 1);
      deps := Some(ids);
    }

    method ReadTarget() returns (o: Outcome, t: TargetImage)
      modifies this
      ensures Shows(o, t, LoadTarget(w, old(View())))
    {
      hide LoadPrereqs, LoadCode, LoadDeps, GetNum, GetStr;
      var id := ReadNum();
      var name := ReadStr();
      t := TargetImage(id, name, None, None, None);
      var prereqs, code, deps;
      o, prereqs := ReadPrereqs();
      if o != Fine {
        return;
      }
      o, code := ReadCode();
      if o != Fine {
        return;
      }
      o, deps := ReadDeps();
      if o != Fine {
        return;
      }
      t := TargetImage(id, name, prereqs, code, deps);
    }

    /** dres_load_targets. */
    method ReadTargets() returns (o: Outcome, ts: seq<TargetImage>)
      modifies this
      ensures Shows(o, ts, LoadTargets(w, old(View())))
    {
      hide LoadTarget, GetNum;
      ts := [];
      var n := ReadNum();
      if n < 0 {
        return Error(ENOMEM), ts;
      }
      o := Take(TableSize(w, n));
      if o != Fine {
        return;
      }
      ghost var r := View();
      for i := 0 to n
        invariant LoadEach(w, r, i) == Got(ts, View())
      {
        var t;
        o, t := ReadTarget();
        if o != Fine {
          StopsThere(w, r, i + 1, n);
          return;
        }
        ts := ts + [t];
      }
      if error != 0 {
        return Error(error), ts;
      }
      return Fine, ts;
    }

    // ----------------------------------------------------------------
    // The later sections
    // ----------------------------------------------------------------

    method TakeTable(n: int, size: nat) returns (o: Outcome)
      modifies this`dused, this`error
      ensures Shows(o, (), AllocTable(old(View()), n, size))
    {
      if n < 0 {
        return Error(ENOMEM);
      }
      o := Take(n * size);
    }

    /** dres_load_factvars. */
    method ReadFactvars() returns (o: Outcome, vs: seq<FactvarImage>)
      modifies this
      ensures Shows(o, vs, LoadFactvars(w, old(View())))
    {
      hide GetNum, GetStr, SizeVariable;
      vs := [];
      var n := ReadNum();
      o := TakeTable(n, SizeVariable(w));
      if o != Fine {
        return;
      }
      ghost var r := View();
      for i := 0 to n
        invariant GetFactvars(r, i) == (vs, View())
      {
        var id := ReadNum();
        var name := ReadStr();
        var flags := ReadNum();
        vs := vs + [FactvarImage(id, name, flags)];
      }
      if error != 0 {
        o := Error(error);
      }
    }

    /** dres_load_dresvars. */
    method ReadDresvars() returns (o: Outcome, vs: seq<DresvarImage>)
      modifies this
      ensures Shows(o, vs, LoadDresvars(w, old(View())))
    {
      hide GetNum, GetStr, SizeVariable;
      vs := [];
      var n := ReadNum();
      o := TakeTable(n, SizeVariable(w));
      if o != Fine {
        return;
      }
      ghost var r := View();
      for i := 0 to n
        invariant GetDresvars(r, i) == (vs, View())
      {
        var id := ReadNum();
        var name := ReadStr();
        vs := vs + [DresvarImage(id, name)];
      }
      if error != 0 {
        o := Error(error);
      }
    }

    /** dres_buf_rdbl. */
    method ReadDbl() returns (d: real)
      modifies this`items, this`error
      ensures (d, View()) == GetDbl(old(View()))
    {
      if items == [] || !items[0].Num? {
        error := errno;
        return 0.0;
      }
      var whole := ReadNum();
      if items == [] || !items[0].Num? {
        error := errno;
        return 0.0;
      }
      var thousandths := ReadNum();
      return FromParts(whole, thousandths);
    }

    method ReadValue(tag: int) returns (v: InitValue)
      modifies this`items, this`error
      ensures (v, View()) == GetValue(old(View()), tag)
    {
      hide GetNum, GetStr, GetDbl;
      if tag == TYPE_INTEGER {
        var i := ReadNum();
        v := OfInt(i);
      } else if tag == TYPE_LOCAL {
        var i := ReadNum();
        v := OfDresVar(i);
      } else if tag == TYPE_STRING {
        var s := ReadStr();
        v := OfStr(s);
      } else if tag == TYPE_DOUBLE {
        var d := ReadDbl();
        v := OfDbl(d);
      } else {
        v := OfOther(tag);
      }
    }

    method ReadField() returns (o: Outcome, f: FieldImage)
      modifies this
      ensures Shows(o, f, LoadField(w, old(View())))
    {
      hide GetNum, GetStr, GetValue;
      f := FieldImage(None, OfOther(0));
      o := Take(SizeField(w));
      if o != Fine {
        return;
      }
      var name := ReadStr();
      var tag := ReadNum();
      var value := ReadValue(tag);
      f := FieldImage(name, value);
    }

    method ReadInit() returns (o: Outcome, init: InitImage)
      modifies this
      ensures Shows(o, init, LoadInit(w, old(View())))
    {
      hide GetNum, LoadField;
      init := InitImage(0, []);
      o := Take(SizeInitializer(w));
      if o != Fine {
        return;
      }
      var variable := ReadNum();
      var n := ReadNum();
      var count := if n < 0 then 0 else n;
      var fs := [];
      ghost var r := View();
      for j := 0 to count
        invariant LoadFields(w, r, j) == Got(fs, View())
      {
        var f;
        o, f := ReadField();
        if o != Fine {
          FieldsStop(w, r, j + 1, count);
          return;
        }
        fs := fs + [f];
      }
      o := Fine;
      init := InitImage(variable, fs);
    }

    /** load_initializers. */
    method ReadInits() returns (o: Outcome, inits: seq<InitImage>)
      modifies this
      ensures Shows(o, inits, LoadInits(w, old(View())))
    {
      hide GetNum, LoadInit;
      inits := [];
      var n := ReadNum();
      var count := if n < 0 then 0 else n;
      ghost var r := View();
      for i := 0 to count
        invariant LoadInitsFrom(w, r, i) == Got(inits, View())
      {
        var init;
        o, init := ReadInit();
        if o != Fine {
          InitsStop(w, r, i + 1, count);
          return;
        }
        inits := inits + [init];
      }
      o := Fine;
    }

    /** load_methods. */
    method ReadMethods() returns (o: Outcome, ms: seq<MethodImage>)
      modifies this
      ensures Shows(o, ms, LoadMethods(w, old(View())))
    {
      hide GetNum, GetStr, SizeMethod;
      ms := [];
      var n := ReadNum();
      o := TakeTable(n, SizeMethod(w));
      if o != Fine {
        return;
      }
      ghost var r := View();
      for i := 0 to n
        invariant GetMethods(r, i) == (ms, View())
      {
        var id := ReadNum();
        var name := ReadStr();
        ms := ms + [MethodImage(id, name)];
      }
    }

    method ReadRest() returns (o: Outcome, f: Rest)
      modifies this
      ensures Shows(o, f, LoadRest(w, old(View())))
    {
      hide LoadFactvars, LoadDresvars, LoadInits, LoadMethods;
      f := Rest([], [], [], []);
      var factvars, dresvars, inits, methods;
      o, factvars := ReadFactvars();
      if o != Fine {
        return;
      }
      o, dresvars := ReadDresvars();
      if o != Fine {
        return;
      }
      o, inits := ReadInits();
      if o != Fine {
        return;
      }
      o, methods := ReadMethods();
      f := Rest(factvars, dresvars, inits, methods);
    }
  }

  /** dres_load, as far as the file is read. */
  method LoadRules(w: Width, file: File, errno: int) returns (o: Outcome, f: RuleSet)
    ensures o == Fine ==> LoadFile(w, file, errno).Got? && LoadFile(w, file, errno).val == f
    ensures o.Error? ==> LoadFile(w, file, errno) == Broken(o.err)
    ensures o == Exits ==> LoadFile(w, file, errno) == Exited
  {
    hide LoadTargets, LoadRest;
    var buf := new LoadBuffer(w, Open(w, file, errno));
    f := RuleSet([], Rest([], [], [], []));
    var ts, rest;
    o, ts := buf.ReadTargets();
    if o != Fine {
      return;
    }
    o, rest := buf.ReadRest();
    f := RuleSet(ts, rest);
  }

  lemma {:induction false} FieldsStop(w: Width, r: Reader, i: nat, n: nat)
    requires i <= n && !LoadFields(w, r, i).Got?
    ensures LoadFields(w, r, n) == LoadFields(w, r, i)
  {
    hide LoadField;
    if i < n {
      FieldsStop(w, r, i, n - 1);
    }
  }

  lemma {:induction false} InitsStop(w: Width, r: Reader, i: nat, n: nat)
    requires i <= n && !LoadInitsFrom(w, r, i).Got?
    ensures LoadInitsFrom(w, r, n) == LoadInitsFrom(w, r, i)
  {
    hide LoadInit;
    if i < n {
      InitsStop(w, r, i, n - 1);
    }
  }

  lemma {:induction false} StopsThere(w: Width, r: Reader, i: nat, n: nat)
    requires i <= n && !LoadEach(w, r, i).Got?
    ensures LoadEach(w, r, n) == LoadEach(w, r, i)
  {
    hide LoadTarget;
    if i < n {
      StopsThere(w, r, i, n - 1);
    }
  }
}
