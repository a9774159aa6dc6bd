/** Identifiers of targets and variables (include/dres/dres.h).  An identifier
    is an `int`: a type byte, a 24-bit index, and two flags in the topmost bits
    of the type byte.  Words are taken as unsigned 32-bit numbers here. */
module Ids {
  import opened Words

  datatype Kind = DresVar | FactVar | Target

  /** What an identifier means. */
  datatype Id = Id(kind: Kind, index: nat, undefined: bool, deleted: bool) {
    predicate Valid() {
      index < 0x100_0000
    }
    function Node(ntarget: nat, nfactvar: nat): nat {
      match kind
      case Target => index
      case FactVar => index + ntarget
      case DresVar => index + nfactvar + ntarget
    }
  }

  const ID_NONE: nat := 0xFFFF_FFFF
  const FLAG_UNDEFINED := 0x8000_0000
  const FLAG_DELETED := 0x4000_0000

  function Code(k: Kind): nat {
    match k
    case DresVar => 5
    case FactVar => 6
    case Target => 7
  }

  /** DRES_TARGET, DRES_FACTVAR, DRES_DRESVAR with their flags. */
  function Pack(id: Id): (w: nat)
    requires id.Valid()
    ensures w < 0x1_0000_0000
  {
    Code(id.kind) * 0x100_0000 + id.index
    + (if id.undefined then FLAG_UNDEFINED else 0) + (if id.deleted then FLAG_DELETED else 0)
  }

  // The macros, on words.

  /** DRES_ID_TYPE: the type byte without its flags. */
  function IdType(w: nat): nat {
    w / 0x100_0000 % 0x40
  }

  /** DRES_INDEX. */
  function Index(w: nat): nat {
    w % 0x100_0000
  }

  /** DRES_IS_DEFINED. */
  predicate IsDefined(w: nat) {
    w / FLAG_UNDEFINED % 2 == 0
  }

  /** DRES_IS_DELETED. */
  predicate IsDeleted(w: nat) {
    w / FLAG_DELETED % 2 == 1
  }

  /** DRES_DELETED, DRES_UNDEFINED, DRES_DEFINED. */
  function Deleted(w: nat): nat {
    if IsDeleted(w) then w else w + FLAG_DELETED
  }

  function Undefined(w: nat): nat {
    if IsDefined(w) then w + FLAG_UNDEFINED else w
  }

  function Defined(w: nat): nat {
    if IsDefined(w) then w else w - FLAG_UNDEFINED
  }

  /** PRQ_IDX: an identifier of no known type falls through with its index. */
  function PrqIdx(w: nat, ntarget: nat, nfactvar: nat): nat {
    Index(w) + (if IdType(w) == 5 then nfactvar + ntarget else if IdType(w) == 6 then ntarget else 0)
  }

  function Unpack(w: nat): Option<Id> {
    var kind := if IdType(w) == 5 then Some(DresVar) else if IdType(w) == 6 then Some(FactVar)
                else if IdType(w) == 7 then Some(Target) else None;
    match kind
    case None => None
    case Some(k) => Some(Id(k, Index(w), !IsDefined(w), IsDeleted(w)))
  }

  /** The fields of a packed identifier do not disturb each other. */
  lemma PackFields(id: Id)
    requires id.Valid()
    ensures Index(Pack(id)) == id.index
    ensures IdType(Pack(id)) == Code(id.kind)
    ensures IsDefined(Pack(id)) <==> !id.undefined
    ensures IsDeleted(Pack(id)) <==> id.deleted
  {
    var top := Code(id.kind) + (if id.undefined then 0x80 else 0) + (if id.deleted then 0x40 else 0);
    assert Pack(id) == top * 0x100_0000 + id.index;
    assert Pack(id) / 0x100_0000 == top && Pack(id) % 0x100_0000 == id.index;
  }

  /** Identifiers survive packing, and no identifier is DRES_ID_NONE. */
  lemma PackRoundTrip(id: Id)
    requires id.Valid()
    ensures Unpack(Pack(id)) == Some(id)
    ensures Pack(id) != ID_NONE && Unpack(ID_NONE) == None
  {
    PackFields(id);
    assert IdType(ID_NONE) == 0x3F;
  }

  /** The macros that set or clear a flag do that and nothing else, also if the
      flag is set or clear already; the sort may therefore tag an identifier
      before it looks its node up. */
  lemma FlagMacros(id: Id)
    requires id.Valid()
    ensures Deleted(Pack(id)) == Pack(id.(deleted := true))
    ensures Undefined(Pack(id)) == Pack(id.(undefined := true))
    ensures Defined(Pack(id)) == Pack(id.(undefined := false))
  {
    hide Index, IdType;
    PackFields(id);
  }

  /** The node of an identifier depends on its kind and index only. */
  lemma NodeMacro(id: Id, ntarget: nat, nfactvar: nat)
    requires id.Valid()
    ensures PrqIdx(Pack(id), ntarget, nfactvar) == id.Node(ntarget, nfactvar)
    ensures forall u, d :: Id(id.kind, id.index, u, d).Node(ntarget, nfactvar) == id.Node(ntarget, nfactvar)
  {
    PackFields(id);
  }
}
