/** A whole precompiled file (src/compiler.c:615-974, src/factvar.c:169-210,
    src/dresvar.c:162-201): after the targets come the fact variables, the dres
    variables, the initializers and the methods. */
module RuleFile {
  import opened Words
  import opened Machine
  import opened Precompiled

  datatype FactvarImage = FactvarImage(id: int, name: Option<string>, flags: int)

  datatype DresvarImage = DresvarImage(id: int, name: Option<string>)

  /** dres_value_t, as the value of an initialized field. */
  datatype InitValue =
    | OfInt(i: int)
    | OfDresVar(id: int)
    | OfStr(s: Option<string>)
    | OfDbl(d: real)
    | OfOther(tag: int)

  datatype FieldImage = FieldImage(name: Option<string>, value: InitValue)

  datatype InitImage = InitImage(variable: int, fields: seq<FieldImage>)

  datatype MethodImage = MethodImage(id: int, name: Option<string>)

  datatype Rest = Rest(factvars: seq<FactvarImage>, dresvars: seq<DresvarImage>, inits: seq<InitImage>,
                       methods: seq<MethodImage>)

  datatype RuleSet = RuleSet(targets: seq<TargetImage>, rest: Rest)

  // ------------------------------------------------------------------
  // Doubles
  // ------------------------------------------------------------------

  /** Conversion of a double to an integer type. */
  function Trunc(d: real): int {
    if d >= 0.0 then d.Floor else -(-d).Floor
  }

  function Abs(d: real): real {
    if d < 0.0 then -d else d
  }

  /** The two numbers dres_buf_wdbl writes for a double. */
  function Whole(d: real): int {
    Trunc(d)
  }

  function Thousandths(d: real): int {
    Trunc(1000.0 * (Abs(d) - Whole(d) as real))
  }

  /** What dres_buf_rdbl makes of them. */
  function FromParts(whole: int, thousandths: int): real {
    if whole < 0 then whole as real - thousandths as real / 1000.0 else whole as real + thousandths as real / 1000.0
  }

  function Reloaded(d: real): real {
    FromParts(Whole(d), Thousandths(d))
  }

  // ------------------------------------------------------------------
  // Writing
  // ------------------------------------------------------------------

  /** What is written next: a number, a string by its offset, or the first of the two
      numbers of a double. */
  datatype Entry = Number(i: int) | Name(s: Option<string>) | Half(i: int)

  /** Room for both numbers of a double is taken before either is written: without room
      for the second, the first stays 0. */
  function PutEntry(w: Width, b: Writer, e: Entry): Writer {
    match e
    case Number(i) => PutNum(b, i)
    case Name(s) => PutStr(w, b, s)
    case Half(i) => PutNum(b, if b.dsize - b.dused < 8 then 0 else i)
  }

  function PutAll(w: Width, b: Writer, es: seq<Entry>): Writer {
    if es == [] then b else PutEntry(w, PutAll(w, b, es[..|es| - 1]), es[|es| - 1])
  }

  function FactvarEntries(v: FactvarImage): seq<Entry> {
    [Number(v.id), Name(v.name), Number(v.flags)]
  }

  function EachFactvar(vs: seq<FactvarImage>): seq<Entry> {
    if vs == [] then [] else EachFactvar(vs[..|vs| - 1]) + FactvarEntries(vs[|vs| - 1])
  }

  function DresvarEntries(v: DresvarImage): seq<Entry> {
    [Number(v.id), Name(v.name)]
  }

  function EachDresvar(vs: seq<DresvarImage>): seq<Entry> {
    if vs == [] then [] else EachDresvar(vs[..|vs| - 1]) + DresvarEntries(vs[|vs| - 1])
  }

  function Tag(v: InitValue): int {
    match v
    case OfInt(_) => TYPE_INTEGER
    case OfDresVar(_) => TYPE_LOCAL
    case OfStr(_) => TYPE_STRING
    case OfDbl(_) => TYPE_DOUBLE
    case OfOther(tag) => tag
  }

  function Payload(v: InitValue): seq<Entry> {
    match v
    case OfInt(i) => [Number(i)]
    case OfDresVar(id) => [Number(id)]
    case OfStr(s) => [Name(s)]
    case OfDbl(d) => [Half(Whole(d)), Number(Thousandths(d))]
    case OfOther(_) => []
  }

  function FieldEntries(f: FieldImage): seq<Entry> {
    [Name(f.name), Number(Tag(f.value))] + Payload(f.value)
  }

  function EachField(fs: seq<FieldImage>): seq<Entry> {
    if fs == [] then [] else EachField(fs[..|fs| - 1]) + FieldEntries(fs[|fs| - 1])
  }

  function InitEntries(i: InitImage): seq<Entry> {
    [Number(i.variable), Number(|i.fields|)] + EachField(i.fields)
  }

  function EachInit(inits: seq<InitImage>): seq<Entry> {
    if inits == [] then [] else EachInit(inits[..|inits| - 1]) + InitEntries(inits[|inits| - 1])
  }

  function FieldCount(inits: seq<InitImage>): nat {
    if inits == [] then 0 else FieldCount(inits[..|inits| - 1]) + |inits[|inits| - 1].fields|
  }

  function MethodEntries(m: MethodImage): seq<Entry> {
    [Number(m.id), Name(m.name)]
  }

  function EachMethod(ms: seq<MethodImage>): seq<Entry> {
    if ms == [] then [] else EachMethod(ms[..|ms| - 1]) + MethodEntries(ms[|ms| - 1])
  }

  /** dres_save_factvars. */
  function SaveFactvars(w: Width, b: Writer, vs: seq<FactvarImage>): Writer {
    var b1 := PutAll(w, b, [Number(|vs|)] + EachFactvar(vs));
    b1.(header := b.header.(nvariable := b.header.nvariable + |vs|))
  }

  /** dres_save_dresvars. */
  function SaveDresvars(w: Width, b: Writer, vs: seq<DresvarImage>): Writer {
    var b1 := PutAll(w, b, [Number(|vs|)] + EachDresvar(vs));
    b1.(header := b.header.(nvariable := b.header.nvariable + |vs|))
  }

  /** save_initializers. */
  function SaveInits(w: Width, b: Writer, inits: seq<InitImage>): Writer {
    var b1 := PutAll(w, b, [Number(|inits|)] + EachInit(inits));
    b1.(header := b.header.(ninit := |inits|, nfield := b.header.nfield + FieldCount(inits)))
  }

  /** save_methods. */
  function SaveMethods(w: Width, b: Writer, ms: seq<MethodImage>): Writer {
    var b1 := PutAll(w, b, [Number(|ms|)] + EachMethod(ms));
    b1.(header := b.header.(nmethod := |ms|))
  }

  function SaveRest(w: Width, b: Writer, f: Rest): Writer {
    SaveMethods(w, SaveInits(w, SaveDresvars(w, SaveFactvars(w, b, f.factvars), f.dresvars), f.inits), f.methods)
  }

  /** What is written to disk. */
  datatype File = File(header: Header, strings: string, items: seq<Item>)

  const INITIAL_SIZE := 64 * 1024
  const MAX_SIZE := 1024 * 1024

  function Attempt(w: Width, size: nat, f: RuleSet): Writer {
    SaveTargets(w, NewWriter(w, size, size), f.targets)
  }

  function Finished(w: Width, size: nat, f: RuleSet): Writer {
    SaveRest(w, Attempt(w, size, f), f.rest)
  }

  /** dres_save, from a size of the buffers on: its status, and the file it leaves.  Only
      saving the targets reports an error; if the file cannot be written, the status of
      saving the methods, which is success, is returned. */
  function Save(w: Width, f: RuleSet, size: nat, writable: bool): (int, Option<File>)
    requires size > 0
    decreases if size < MAX_SIZE then MAX_SIZE - size else 0
  {
    var b := Attempt(w, size, f);
    if b.error != 0 then
      if b.error == ENOMEM && size < MAX_SIZE then Save(w, f, 2 * size, writable) else (b.error, None)
    else if !writable then (0, None)
    else
      var b1 := Finished(w, size, f);
      (0, Some(File(b1.header, b1.strings, b1.items)))
  }

  // ------------------------------------------------------------------
  // Reading
  // ------------------------------------------------------------------

  function GetFactvar(r: Reader): (FactvarImage, Reader) {
    var (id, r1) := GetNum(r);
    var (name, r2) := GetStr(r1);
    var (flags, r3) := GetNum(r2);
    (FactvarImage(id, name, flags), r3)
  }

  function GetFactvars(r: Reader, n: nat): (seq<FactvarImage>, Reader) {
    if n == 0 then ([], r)
    else
      var (vs, r1) := GetFactvars(r, n - 1);
      var (v, r2) := GetFactvar(r1);
      (vs + [v], r2)
  }

  /** Room for a table: a negative number of entries is a huge one. */
  function AllocTable(r: Reader, n: int, size: nat): Load<()> {
    if n < 0 then Broken(ENOMEM) else Alloc(r, n * size)
  }

  /** dres_load_factvars. */
  function LoadFactvars(w: Width, r: Reader): Load<seq<FactvarImage>> {
    var (n, r1) := GetNum(r);
    var (_, r2) :- AllocTable(r1, n, SizeVariable(w));
    var (vs, r3) := GetFactvars(r2, n);
    if r3.error != 0 then Broken(r3.error) else Got(vs, r3)
  }

  function GetDresvar(r: Reader): (DresvarImage, Reader) {
    var (id, r1) := GetNum(r);
    var (name, r2) := GetStr(r1);
    (DresvarImage(id, name), r2)
  }

  function GetDresvars(r: Reader, n: nat): (seq<DresvarImage>, Reader) {
    if n == 0 then ([], r)
    else
      var (vs, r1) := GetDresvars(r, n - 1);
      var (v, r2) := GetDresvar(r1);
      (vs + [v], r2)
  }

  /** dres_load_dresvars. */
  function LoadDresvars(w: Width, r: Reader): Load<seq<DresvarImage>> {
    var (n, r1) := GetNum(r);
    var (_, r2) :- AllocTable(r1, n, SizeVariable(w));
    var (vs, r3) := GetDresvars(r2, n);
    if r3.error != 0 then Broken(r3.error) else Got(vs, r3)
  }

  /** dres_buf_rdbl. */
  function GetDbl(r: Reader): (real, Reader) {
    var (whole, r1) := GetNum(r);
    if !Readable(r) then (0.0, r1)
    else
      var (thousandths, r2) := GetNum(r1);
      if !Readable(r1) then (0.0, r2) else (FromParts(whole, thousandths), r2)
  }

  function GetValue(r: Reader, tag: int): (InitValue, Reader) {
    if tag == TYPE_INTEGER then
      var (i, r1) := GetNum(r); (OfInt(i), r1)
    else if tag == TYPE_LOCAL then
      var (i, r1) := GetNum(r); (OfDresVar(i), r1)
    else if tag == TYPE_STRING then
      var (s, r1) := GetStr(r); (OfStr(s), r1)
    else if tag == TYPE_DOUBLE then
      var (d, r1) := GetDbl(r); (OfDbl(d), r1)
    else (OfOther(tag), r)
  }

  function LoadField(w: Width, r: Reader): Load<FieldImage> {
    var (_, r1) :- Alloc(r, SizeField(w));
    var (name, r2) := GetStr(r1);
    var (tag, r3) := GetNum(r2);
    var (value, r4) := GetValue(r3, tag);
    Got(FieldImage(name, value), r4)
  }

  function LoadFields(w: Width, r: Reader, n: nat): Load<seq<FieldImage>> {
    if n == 0 then Got([], r)
    else
      var (fs, r1) :- LoadFields(w, r, n - 1);
      var (f, r2) :- LoadField(w, r1);
      Got(fs + [f], r2)
  }

  function LoadInit(w: Width, r: Reader): Load<InitImage> {
    var (_, r1) :- Alloc(r, SizeInitializer(w));
    var (variable, r2) := GetNum(r1);
    var (n, r3) := GetNum(r2);
    var (fs, r4) :- LoadFields(w, r3, if n < 0 then 0 else n);
    Got(InitImage(variable, fs), r4)
  }

  function LoadInitsFrom(w: Width, r: Reader, n: nat): Load<seq<InitImage>> {
    if n == 0 then Got([], r)
    else
      var (inits, r1) :- LoadInitsFrom(w, r, n - 1);
      var (init, r2) :- LoadInit(w, r1);
      Got(inits + [init], r2)
  }

  /** load_initializers: an error in reading is not looked at. */
  function LoadInits(w: Width, r: Reader): Load<seq<InitImage>> {
    var (n, r1) := GetNum(r);
    LoadInitsFrom(w, r1, if n < 0 then 0 else n)
  }

  function GetMethod(r: Reader): (MethodImage, Reader) {
    var (id, r1) := GetNum(r);
    var (name, r2) := GetStr(r1);
    (MethodImage(id, name), r2)
  }

  function GetMethods(r: Reader, n: nat): (seq<MethodImage>, Reader) {
    if n == 0 then ([], r)
    else
      var (ms, r1) := GetMethods(r, n - 1);
      var (m, r2) := GetMethod(r1);
      (ms + [m], r2)
  }

  /** load_methods: likewise. */
  function LoadMethods(w: Width, r: Reader): Load<seq<MethodImage>> {
    var (n, r1) := GetNum(r);
    var (_, r2) :- AllocTable(r1, n, SizeMethod(w));
    var (ms, r3) := GetMethods(r2, n);
    Got(ms, r3)
  }

  function LoadRest(w: Width, r: Reader): Load<Rest> {
    var (factvars, r1) :- LoadFactvars(w, r);
    var (dresvars, r2) :- LoadDresvars(w, r1);
    var (inits, r3) :- LoadInits(w, r2);
    var (methods, r4) :- LoadMethods(w, r3);
    Got(Rest(factvars, dresvars, inits, methods), r4)
  }

  /** The arena dres_load allocates. */
  function Open(w: Width, file: File, errno: int): Reader {
    Reader(file.items, 0, ArenaSize(w, file.header), file.strings, 0, errno)
  }

  /** dres_load, as far as the file is read. */
  function LoadFile(w: Width, file: File, errno: int): Load<RuleSet> {
    var (ts, r1) :- LoadTargets(w, Open(w, file, errno));
    var (rest, r2) :- LoadRest(w, r1);
    Got(RuleSet(ts, rest), r2)
  }
}
