/** Saving and loading the targets of a precompiled rule set (src/target.c:262-413,
    src/compiler.c:779-827, 982-1306): a stream of 32-bit numbers and blocks of
    code, a table of strings, and an arena the loaded structures are put into. */
module Precompiled {
  import opened Words
  import opened Machine

  /** A number of four bytes, or a block of code. */
  datatype Item = Num(i: int) | Block(cells: seq<Cell>)

  /** vm_chunk_t. */
  datatype Image = Image(ninstr: int, cells: seq<Cell>)

  /** dres_target_t, as far as it is saved.  A list of dependencies is given without
      its terminator. */
  datatype TargetImage = TargetImage(id: int, name: Option<string>, prereqs: Option<seq<int>>, code: Option<Image>,
                                     deps: Option<seq<int>>)

  /** dres_header_t. */
  datatype Header = Header(ntarget: nat, nprereq: nat, ncode: nat, sinstr: nat, ndependency: nat,
                           nvariable: nat, ninit: nat, nfield: nat, nmethod: nat)

  const NO_COUNTS := Header(0, 0, 0, 0, 0, 0, 0, 0, 0)

  // Sizes of the structures allocated.

  function SizeTarget(w: Width): nat {
    if w.W32? then 36 else 64
  }

  /** The table of targets. */
  function TableSize(w: Width, n: nat): nat {
    n * SizeTarget(w)
  }

  function SizePrereq(w: Width): nat {
    if w.W32? then 8 else 16
  }

  function SizeChunk(w: Width): nat {
    if w.W32? then 16 else 24
  }

  function SizeVariable(w: Width): nat {
    if w.W32? then 24 else 32
  }

  function SizeInitializer(w: Width): nat {
    if w.W32? then 12 else 24
  }

  /** dres_init_t, on hosts that align doubles to eight bytes. */
  function SizeField(w: Width): nat {
    32
  }

  function SizeMethod(w: Width): nat {
    if w.W32? then 16 else 32
  }

  function CodeSize(w: Width, cells: seq<Cell>): nat {
    |cells| * w.Bytes()
  }

  /** DRES_ALIGN_TO a pointer. */
  function AlignUp(w: Width, n: nat): nat {
    w.Cells(n) * w.Bytes()
  }

  // ------------------------------------------------------------------
  // Writing
  // ------------------------------------------------------------------

  /** dres_buf_t while saving; `strings` is the part of the table in use. */
  datatype Writer = Writer(items: seq<Item>, dused: nat, dsize: nat, strings: string, ssize: nat, error: int,
                           header: Header)

  /** dres_buf_create. */
  function NewWriter(w: Width, dsize: nat, ssize: nat): Writer {
    Writer([], 0, AlignUp(w, dsize), Zeros(w.Bytes()), AlignUp(w, ssize), 0, NO_COUNTS)
  }

  function Zeros(n: nat): (s: string)
    ensures |s| == n
  {
    seq(n, _ => '\0')
  }

  /** dres_buf_alloc while saving; the error is sticky. */
  function Put(b: Writer, size: nat, item: Item): Writer {
    if b.error != 0 then b
    else if b.dsize - b.dused < size then b.(error := ENOMEM)
    else b.(dused := b.dused + size, items := b.items + [item])
  }

  /** dres_buf_ws32, dres_buf_wu32. */
  function PutNum(b: Writer, i: int): Writer {
    Put(b, 4, Num(i))
  }

  function PutNums(b: Writer, nums: seq<int>): Writer {
    if nums == [] then b else PutNum(PutNums(b, nums[..|nums| - 1]), nums[|nums| - 1])
  }

  /** dres_buf_stralloc: the string with its terminator, padded to the alignment; no
      string and the empty string share the zeros at the front. */
  function StrAlloc(w: Width, b: Writer, s: Option<string>): Writer {
    if b.error != 0 || s.GetOr("") == "" then b
    else if b.ssize - |b.strings| < AlignUp(w, |s.value| + 1) then b.(error := ENOMEM)
    else b.(strings := b.strings + s.value + Zeros(AlignUp(w, |s.value| + 1) - |s.value|))
  }

  function OffsetOf(b: Writer, s: Option<string>): nat {
    if s.GetOr("") == "" then 0 else |b.strings|
  }

  /** dres_buf_wstr. */
  function PutStr(w: Width, b: Writer, s: Option<string>): Writer {
    var b1 := StrAlloc(w, b, s);
    if b1.error != 0 then b1 else PutNum(b1, OffsetOf(b, s))
  }

  function SavePrereqs(b: Writer, prereqs: Option<seq<int>>): Writer {
    var ids := prereqs.GetOr([]);
    var b1 := PutNums(PutNum(b, |ids|), ids);
    b1.(header := b1.header.(ntarget := b1.header.ntarget + |ids|))
  }

  function SaveCode(w: Width, b: Writer, code: Option<Image>): Writer {
    match code
    case None => PutNum(b, 0)
    case Some(c) =>
      var size := CodeSize(w, c.cells);
      var b1 := Put(PutNum(PutNum(b, c.ninstr), size), size, Block(c.cells));
      b1.(header := b1.header.(ncode := b1.header.ncode + 1, sinstr := b1.header.sinstr + size))
  }

  function SaveDeps(b: Writer, deps: Option<seq<int>>): Writer {
    match deps
    case None => PutNum(b, 0)
    case Some(ids) =>
      var b1 := PutNums(PutNum(b, |ids| + 1), ids);
      b1.(header := b1.header.(ndependency := b1.header.ndependency + |ids| + 1))
  }

  /** One turn of the loop of dres_save_targets. */
  function SaveTarget(w: Width, b: Writer, t: TargetImage): Writer {
    SaveDeps(SaveCode(w, SavePrereqs(PutStr(w, PutNum(b, t.id), t.name), t.prereqs), t.code), t.deps)
  }

  function SaveEach(w: Width, b: Writer, ts: seq<TargetImage>): Writer {
    if ts == [] then b else SaveTarget(w, SaveEach(w, b, ts[..|ts| - 1]), ts[|ts| - 1])
  }

  /** dres_save_targets.  Prerequisites are counted as targets. */
  function SaveTargets(w: Width, b: Writer, ts: seq<TargetImage>): Writer {
    var b1 := PutNum(b, |ts|);
    SaveEach(w, b1.(header := b1.header.(ntarget := |ts|)), ts)
  }

  // ------------------------------------------------------------------
  // Reading
  // ------------------------------------------------------------------

  /** dres_buf_t while loading: what is left of the file, and the arena.  A read that
      falls short takes the error from errno, which the end of the file leaves as it
      was, perhaps 0. */
  datatype Reader = Reader(items: seq<Item>, dused: nat, dsize: nat, strings: string, error: int, errno: int)

  /** What loading comes to; `Exited` is the end of the process. */
  datatype Load<+T> = Got(val: T, r: Reader) | Broken(err: int) | Exited {
    predicate IsFailure() {
      !Got?
    }
    function PropagateFailure<U>(): Load<U>
      requires !Got?
    {
      match this
      case Broken(err) => Broken(err)
      case Exited => Exited
    }
    function Extract(): (T, Reader)
      requires Got?
    {
      (val, r)
    }
  }

  /** The size of the arena dres_load works out from the header. */
  function ArenaSize(w: Width, h: Header): nat {
    TargetSize(w, h) + OtherSize(w, h)
  }

  /** The part of it that is worked out from what the targets count. */
  function TargetSize(w: Width, h: Header): nat {
    TableSize(w, h.ntarget) + SizePrereq(w) * h.nprereq + SizeChunk(w) * h.ncode + h.sinstr + 4 * h.ndependency
  }

  function OtherSize(w: Width, h: Header): nat {
    SizeVariable(w) * h.nvariable + SizeInitializer(w) * h.ninit + SizeField(w) * h.nfield + SizeMethod(w) * h.nmethod
  }

  /** dres_buf_alloc while loading. */
  function Alloc(r: Reader, size: nat): Load<()> {
    if r.error != 0 || r.dsize - r.dused < size then Broken(ENOMEM) else Got((), r.(dused := r.dused + size))
  }

  /** Reading a number fails at the end of the file. */
  predicate Readable(r: Reader) {
    r.items != [] && r.items[0].Num?
  }

  /** dres_buf_rs32. */
  function GetNum(r: Reader): (int, Reader) {
    if !Readable(r) then (0, r.(error := r.errno)) else (r.items[0].i, r.(items := r.items[1..]))
  }

  function GetNums(r: Reader, n: nat): (seq<int>, Reader) {
    if n == 0 then ([], r)
    else
      var (rest, r1) := GetNums(r, n - 1);
      var (i, r2) := GetNum(r1);
      (rest + [i], r2)
  }

  /** The string at an offset of the table. */
  function StringAt(strings: string, offs: nat): string
    decreases |strings| - offs
  {
    if offs >= |strings| || strings[offs] == '\0' then "" else [strings[offs]] + StringAt(strings, offs + 1)
  }

  /** dres_buf_rstr. */
  function GetStr(r: Reader): (Option<string>, Reader) {
    var (offs, r1) := GetNum(r);
    if !Readable(r) then (None, r1)
    else if offs < 0 || offs > |r.strings| then (None, r1.(error := EOVERFLOW))
    else (Some(StringAt(r.strings, offs)), r1)
  }

  /** dres_buf_rbuf. */
  function GetBlock(r: Reader, size: int): Load<seq<Cell>> {
    if size < 0 then Broken(ENOMEM)
    else
      var (_, r1) :- Alloc(r, size);
      if r1.items == [] || !r1.items[0].Block? then Got([], r1.(error := r1.errno))
      else Got(r1.items[0].cells, r1.(items := r1.items[1..]))
  }

  function LoadPrereqs(w: Width, r: Reader): Load<Option<seq<int>>> {
    var (n, r1) := GetNum(r);
    if n <= 0 then Got(None, r1)
    else
      var (_, r2) :- Alloc(r1, SizePrereq(w));
      var (_, r3) :- Alloc(r2, 4 * n);
      var (ids, r4) := GetNums(r3, n);
      Got(Some(ids), r4)
  }

  /** The structure of a chunk has to be aligned, or the process exits. */
  function LoadCode(w: Width, r: Reader): Load<Option<Image>> {
    var (n, r1) := GetNum(r);
    if n <= 0 then Got(None, r1)
    else
      var (_, r2) :- Alloc(r1, SizeChunk(w));
      if r1.dused % w.Bytes() != 0 then Exited
      else
        var (size, r3) := GetNum(r2);
        var (cells, r4) :- GetBlock(r3, size);
        Got(Some(Image(n, cells)), r4)
  }

  function LoadDeps(r: Reader): Load<Option<seq<int>>> {
    var (n, r1) := GetNum(r);
    if n <= 0 then Got(None, r1)
    else
      var (_, r2) :- Alloc(r1, 4 * n);
      var (ids, r3) := GetNums(r2, n - 1);
      Got(Some(ids), r3)
  }

  /** One turn of the loop of dres_load_targets. */
  function LoadTarget(w: Width, r: Reader): Load<TargetImage> {
    var (id, r1) := GetNum(r);
    var (name, r2) := GetStr(r1);
    var (prereqs, r3) :- LoadPrereqs(w, r2);
    var (code, r4) :- LoadCode(w, r3);
    var (deps, r5) :- LoadDeps(r4);
    Got(TargetImage(id, name, prereqs, code, deps), r5)
  }

  function LoadEach(w: Width, r: Reader, n: nat): Load<seq<TargetImage>> {
    if n == 0 then Got([], r)
    else
      var (ts, r1) :- LoadEach(w, r, n - 1);
      var (t, r2) :- LoadTarget(w, r1);
      Got(ts + [t], r2)
  }

  /** dres_load_targets. */
  function LoadTargets(w: Width, r: Reader): Load<seq<TargetImage>> {
    var (n, r1) := GetNum(r);
    if n < 0 then Broken(ENOMEM)
    else
      var (_, r2) :- Alloc(r1, TableSize(w, n));
      var (ts, r3) :- LoadEach(w, r2, n);
      if r3.error != 0 then Broken(r3.error) else Got(ts, r3)
  }
}
