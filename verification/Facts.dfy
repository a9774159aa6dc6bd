/** Facts, globals and the fact store as the VM instructions use them
    (src/vm-global.c, src/vm-instr.c).  A fact is a named map from fields to
    values and lives in a heap of objects, so that two globals can hold the
    same fact.  The functions say what each instruction does to the facts; the
    loops that do it are in `Globals`. */
module Facts {
  import opened Words

  type Ref = nat

  datatype Field = IntField(i: int) | DblField(d: real) | StrField(s: string)

  type Fields = map<string, Field>

  datatype Fact = Fact(name: string, fields: Fields)

  /** vm_global_t: the facts it refers to, or only a name if there are none. */
  datatype Global = Global(name: Option<string>, facts: seq<Ref>) {
    predicate IsName() {
      name.Some? && facts == []
    }
  }

  /** A field of a fact, where a string may live. */
  datatype Place = Place(fact: Ref, field: string)

  /** A string read from a field is not copied: it is the fact's own.  A loan says
      where it lives, and how many method calls had been made when it was read. */
  datatype Loan = Loan(place: Place, since: nat)

  datatype Value = Nil | Int(i: int) | Dbl(d: real) | Str(s: string, loan: Option<Loan> := None) | Glob(g: Global)

  /** Everything an action can change: the facts, the fact store, a count of the
      method calls made, so that a handler may answer each call differently, and for
      the fields whose values have been freed, the count when that last happened. */
  datatype World = World(heap: map<Ref, Fact>, store: seq<Ref>, next: Ref, calls: nat, freed: map<Place, nat>) {
    function Of(r: Ref): Fact {
      if r in heap then heap[r] else Fact("", map[])
    }

    function FieldsOf(r: Ref): Fields {
      Of(r).fields
    }

    /** Gives a fact other fields; the values of some of the old ones are freed. */
    function Write(r: Ref, fields: Fields, gone: set<string>): World {
      this.(heap := if FieldsOf(r) == fields then heap else heap[r := Of(r).(fields := fields)],
            freed := freed + Marks(r, gone, calls))
    }

    /** Sets the fields that differ, and leaves the others alone. */
    function With(r: Ref, fields: Fields): World {
      Write(r, fields, Differing(FieldsOf(r), fields))
    }

    /** Clears a fact and sets its fields anew. */
    function Reset(r: Ref, fields: Fields): World {
      Write(r, fields, FieldsOf(r).Keys)
    }

    /** ohm_fact_store_insert, under the given name. */
    function Insert(r: Ref, name: string): World {
      this.(heap := heap[r := Of(r).(name := name)], store := store + [r])
    }
  }

  function Marks(r: Ref, fields: set<string>, count: nat): map<Place, nat> {
    map f | f in fields :: Place(r, f) := count
  }

  function Differing(before: Fields, after: Fields): set<string> {
    set f | f in before && (f !in after || after[f] != before[f])
  }

  /** A string whose field has been set anew, or removed with its fact, since it was
      read.  The count does for that: while a value waits on the stack, only the
      handler of a method called in the meantime can free it. */
  predicate Dangling(w: World, v: Value) {
    v.Str? && v.loan.Some?
    && var Loan(place, since) := v.loan.value;
       place.fact !in w.store || (place in w.freed && w.freed[place] > since)
  }

  /** What an instruction that works on facts comes to.  `Undefined` stands for
      undefined behaviour of the C program. */
  datatype Effect<+T> = Done(val: T, w: World) | Error(err: int, w: World) | Undefined

  const UNNAMED := "__vm_global"

  // ------------------------------------------------------------------
  // Lookup
  // ------------------------------------------------------------------

  /** The facts of a list that have a given name, in order. */
  function Named(w: World, refs: seq<Ref>, name: string): seq<Ref> {
    if refs == [] then []
    else
      var rest, last := Named(w, refs[..|refs| - 1], name), refs[|refs| - 1];
      if w.Of(last).name == name then rest + [last] else rest
  }

  /** vm_global_lookup, falling back on vm_global_name. */
  function Lookup(w: World, name: string): Global {
    var found := Named(w, w.store, name);
    if found == [] then Global(Some(name), []) else Global(None, found)
  }

  // ------------------------------------------------------------------
  // FILTER
  // ------------------------------------------------------------------

  datatype Test = Test(field: string, value: Value, neq: bool)

  /** vm_fact_match_field: `None` if the types do not go together. */
  function FieldTest(f: Field, v: Value): Option<bool> {
    match (f, v)
    case (IntField(i), Int(j)) => Some(i == j)
    case (DblField(d), Dbl(e)) => Some(d == e)
    case (StrField(s), Str(t, _)) => Some(s == t)
    case _ => None
  }

  /** Whether a fact stays when a selector is applied. */
  function Keeps(f: Fields, t: Test): Option<bool> {
    if t.field !in f then Some(t.neq)
    else match FieldTest(f[t.field], t.value)
         case None => None
         case Some(b) => Some(b != t.neq)
  }

  function FilterOne(w: World, refs: seq<Ref>, t: Test): Option<seq<Ref>> {
    if refs == [] then Some([])
    else
      var last := refs[|refs| - 1];
      match FilterOne(w, refs[..|refs| - 1], t)
      case None => None
      case Some(rest) =>
        match Keeps(w.FieldsOf(last), t)
        case None => None
        case Some(b) => Some(if b then rest + [last] else rest)
  }

  /** The last selector sits on top of the stack and is applied first. */
  function FilterAll(w: World, refs: seq<Ref>, tests: seq<Test>): Option<seq<Ref>>
    decreases |tests|
  {
    if tests == [] then Some(refs)
    else match FilterOne(w, refs, tests[|tests| - 1])
         case None => None
         case Some(kept) => FilterAll(w, kept, tests[..|tests| - 1])
  }

  /** Whether a selector that raises has dropped a fact before. */
  predicate Drops(w: World, refs: seq<Ref>, t: Test) {
    refs != []
    && match FilterOne(w, refs[..|refs| - 1], t)
       case None => Drops(w, refs[..|refs| - 1], t)
       case Some(kept) => Keeps(w.FieldsOf(refs[|refs| - 1]), t).None? && |kept| < |refs| - 1
  }

  /** Whether a FILTER that raises has dropped one of the `had` facts it began with.
      Its table then has holes that its count of facts does not know of, and
      freeing the global, as unwinding does, runs past the end of the table. */
  predicate Torn(w: World, refs: seq<Ref>, tests: seq<Test>, had: nat)
    decreases |tests|
  {
    if tests == [] then |refs| < had
    else match FilterOne(w, refs, tests[|tests| - 1])
         case None => |refs| < had || Drops(w, refs, tests[|tests| - 1])
         case Some(kept) => Torn(w, kept, tests[..|tests| - 1], had)
  }

  // ------------------------------------------------------------------
  // Matching by fields
  // ------------------------------------------------------------------

  /** vm_field_matches. */
  predicate FieldMatches(d: Fields, field: string, v: Field) {
    field in d && d[field] == v
  }

  predicate HasAll(f: Fields, fields: seq<string>) {
    forall i | 0 <= i < |fields| :: fields[i] in f
  }

  /** Index of the first field a fact lacks, or the number of fields. */
  function FirstMissing(f: Fields, fields: seq<string>): (k: nat)
    ensures k <= |fields|
    ensures k < |fields| ==> fields[k] !in f
    ensures forall i | 0 <= i < k :: fields[i] in f
  {
    if fields == [] then 0
    else
      var k := FirstMissing(f, fields[..|fields| - 1]);
      if k < |fields| - 1 then k
      else if fields[k] in f then k + 1 else k
  }

  /** vm_fact_matches against the values of a source. */
  predicate Matches(d: Fields, fields: seq<string>, s: Fields) {
    forall i | 0 <= i < |fields| :: fields[i] in s && FieldMatches(d, fields[i], s[fields[i]])
  }

  // ------------------------------------------------------------------
  // UPDATE
  // ------------------------------------------------------------------

  /** vm_fact_copy, or vm_fact_update for a partial assignment. */
  function Assign(d: Fields, s: Fields, partial: bool): Fields {
    if partial then d + s else s
  }

  function Assigned(w: World, d: Ref, s: Fields, partial: bool): World {
    if partial then w.With(d, Assign(w.FieldsOf(d), s, true)) else w.Reset(d, s)
  }

  /** One source against all destinations, in order. */
  function UpdateDsts(w: World, sf: Fields, dst: seq<Ref>, fields: seq<string>, partial: bool): World {
    if dst == [] then w
    else
      var w1, last := UpdateDsts(w, sf, dst[..|dst| - 1], fields, partial), dst[|dst| - 1];
      if Matches(w1.FieldsOf(last), fields, sf) then Assigned(w1, last, sf, partial) else w1
  }

  predicate SomeMatch(w: World, dst: seq<Ref>, fields: seq<string>, sf: Fields) {
    exists j | 0 <= j < |dst| :: Matches(w.FieldsOf(dst[j]), fields, sf)
  }

  /** Some fact has the field whose value is a null pointer. */
  predicate Dereferences(w: World, dst: seq<Ref>, field: string) {
    exists j | 0 <= j < |dst| :: field in w.FieldsOf(dst[j])
  }

  /** A full copy of a source onto itself frees the values it is matched by; a
      destination after it that has the first field is then compared with one. */
  predicate Dangles(w: World, s: Ref, dst: seq<Ref>, fields: seq<string>) {
    fields != [] && exists j, k | 0 <= j < k < |dst| :: dst[j] == s && fields[0] in w.FieldsOf(dst[k])
  }

  function UpdateSrc(w: World, s: Ref, dst: seq<Ref>, fields: seq<string>, partial: bool): Effect<()> {
    var sf := w.FieldsOf(s);
    var k := FirstMissing(sf, fields);
    if 0 < k < |fields| then Error(ENOENT, w)
    else if k < |fields| then
      // a missing first field is reported as success
      if Dereferences(w, dst, fields[0]) then Undefined else Error(ENOENT, w)
    else if !SomeMatch(w, dst, fields, sf) then Error(ENOENT, w)
    else if !partial && Dangles(w, s, dst, fields) then Undefined
    else Done((), UpdateDsts(w, sf, dst, fields, partial))
  }

  function UpdateAll(w: World, src: seq<Ref>, dst: seq<Ref>, fields: seq<string>, partial: bool): Effect<()> {
    if src == [] then Done((), w)
    else match UpdateAll(w, src[..|src| - 1], dst, fields, partial)
         case Done(_, w1) => UpdateSrc(w1, src[|src| - 1], dst, fields, partial)
         case Error(err, w1) => Error(err, w1)
         case Undefined => Undefined
  }

  // ------------------------------------------------------------------
  // REPLACE
  // ------------------------------------------------------------------

  /** The destinations while sources are merged into them: merged ones leave a
      hole, and `nfact`, which bounds the scan, counts the ones left. */
  datatype Dests = Dests(w: World, slots: seq<Option<Ref>>, nfact: nat, hit: bool)

  function Scan(ds: Dests, sf: Fields, fields: seq<string>, j: nat): Dests
    decreases |ds.slots| - j
  {
    if j >= ds.nfact || j >= |ds.slots| then ds
    else match ds.slots[j]
         case Some(r) =>
           if Matches(ds.w.FieldsOf(r), fields, sf) then
             Scan(Dests(ds.w.With(r, ds.w.FieldsOf(r) + sf), ds.slots[j := None], ds.nfact - 1, true), sf, fields,
                  j + 1)
           else Scan(ds, sf, fields, j + 1)
         case None => Scan(ds, sf, fields, j + 1)
  }

  predicate ScanDereferences(ds: Dests, field: string) {
    exists j | 0 <= j < ds.nfact && j < |ds.slots| ::
      ds.slots[j].Some? && field in ds.w.FieldsOf(ds.slots[j].value)
  }

  datatype Merge = Merged(ds: Dests, left: seq<Ref>) | MergeError(err: int, w: World) | MergeUndefined

  function MergeSrc(ds: Dests, left: seq<Ref>, s: Ref, fields: seq<string>): Merge {
    var sf := ds.w.FieldsOf(s);
    var k := FirstMissing(sf, fields);
    if 0 < k < |fields| then MergeError(ENOENT, ds.w)
    else if k < |fields| then
      if ScanDereferences(ds, fields[0]) then MergeUndefined else Merged(ds, left + [s])
    else
      var ds1 := Scan(ds.(hit := false), sf, fields, 0);
      Merged(ds1, if ds1.hit then left else left + [s])
  }

  function MergeAll(ds: Dests, src: seq<Ref>, fields: seq<string>): Merge {
    if src == [] then Merged(ds, [])
    else match MergeAll(ds, src[..|src| - 1], fields)
         case Merged(ds1, left) => MergeSrc(ds1, left, src[|src| - 1], fields)
         case other => other
  }

  predicate InSlots(r: Ref, slots: seq<Option<Ref>>) {
    Some(r) in slots
  }

  /** ohm_fact_store_remove for every destination left. */
  function RemoveFrom(store: seq<Ref>, slots: seq<Option<Ref>>): seq<Ref> {
    if store == [] then []
    else
      var rest, last := RemoveFrom(store[..|store| - 1], slots), store[|store| - 1];
      if InSlots(last, slots) then rest else rest + [last]
  }

  function InsertAll(w: World, refs: seq<Ref>, name: string): World {
    if refs == [] then w
    else InsertAll(w, refs[..|refs| - 1], name).Insert(refs[|refs| - 1], name)
  }

  function Occupied(refs: seq<Ref>): (slots: seq<Option<Ref>>)
    ensures |slots| == |refs|
  {
    seq(|refs|, i requires 0 <= i < |refs| => Some(refs[i]))
  }

  /** The name inserted facts get: the one of the destinations, which is copied
      to a buffer of 256 bytes. */
  function ReplaceName(w: World, dst: Global): Option<string> {
    if dst.facts != [] then Some(Truncated(w.Of(dst.facts[0]).name))
    else match dst.name
         case None => None
         case Some(name) => Some(Truncated(name))
  }

  function Truncated(name: string): string {
    if |name| <= 255 then name else name[..255]
  }

  function ReplaceAll(w: World, src: seq<Ref>, dst: seq<Ref>, fields: seq<string>, name: string): Effect<()> {
    var ds0 := Dests(w, Occupied(dst), |dst|, false);
    match if fields == [] then Merged(ds0, src) else MergeAll(ds0, src, fields)
    case Merged(ds, left) =>
      var w1 := ds.w.(store := RemoveFrom(ds.w.store, ds.slots));
      Done((), InsertAll(w1, left, name))
    case MergeError(err, w1) => Error(err, w1)
    case MergeUndefined => Undefined
  }

  // ------------------------------------------------------------------
  // SET, SET FIELD, GET FIELD
  // ------------------------------------------------------------------

  function InsertCopies(w: World, src: seq<Ref>, name: string): World {
    if src == [] then w
    else
      var w1 := InsertCopies(w, src[..|src| - 1], name);
      w1.(heap := w1.heap[w1.next := Fact(name, w1.FieldsOf(src[|src| - 1]))],
          store := w1.store + [w1.next], next := w1.next + 1)
  }

  function CopyEach(w: World, src: seq<Ref>, dst: seq<Ref>): World
    requires |src| == |dst|
  {
    if src == [] then w
    else
      var n := |src| - 1;
      var w1 := CopyEach(w, src[..n], dst[..n]);
      w1.Reset(dst[n], w1.FieldsOf(src[n]))
  }

  /** vm_instr_set_var. */
  function SetGlobal(w: World, src: Global, dst: Global): Effect<()> {
    if dst.IsName() then
      if |src.facts| == 1 && w.Of(src.facts[0]).name == UNNAMED then
        Done((), w.Insert(src.facts[0], dst.name.value))
      else Done((), InsertCopies(w, src.facts, dst.name.value))
    else if |src.facts| != |dst.facts| then Error(EINVAL, w)
    else Done((), CopyEach(w, src.facts, dst.facts))
  }

  function AsField(v: Value): Option<Field> {
    match v
    case Int(i) => Some(IntField(i))
    case Dbl(d) => Some(DblField(d))
    case Str(s, _) => Some(StrField(s))
    case _ => None
  }

  function AsValue(f: Field, loan: Loan): Value {
    match f
    case IntField(i) => Int(i)
    case DblField(d) => Dbl(d)
    case StrField(s) => Str(s, Some(loan))
  }

  /** vm_instr_set_field. */
  function SetFieldOf(w: World, g: Global, field: string, v: Value): Effect<()> {
    if |g.facts| < 1 then Error(ENOENT, w)
    else if |g.facts| > 1 then Error(EINVAL, w)
    else if Dangling(w, v) then Undefined
    else match AsField(v)
         case None => Error(EINVAL, w)
         case Some(f) => Done((), w.With(g.facts[0], w.FieldsOf(g.facts[0])[field := f]))
  }

  /** vm_instr_get_field. */
  function GetFieldOf(w: World, g: Global, field: string): Effect<Value> {
    if |g.facts| < 1 then Error(ENOENT, w)
    else if |g.facts| > 1 then Error(EINVAL, w)
    else if field !in w.FieldsOf(g.facts[0]) then Error(ENOENT, w)
    else Done(AsValue(w.FieldsOf(g.facts[0])[field], Loan(Place(g.facts[0], field), w.calls)), w)
  }
}
