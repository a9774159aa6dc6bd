/** Machine words and VM instruction words (include/dres/vm.h).

    Instruction words are `uintptr_t`s assembled by macros from C `int`s.  The
    model computes every macro with the type the macro computes it with: most
    words are built as 32-bit `int`s, which wrap, and are then converted to
    `uintptr_t`, which sign-extends them where pointers are 64 bits wide.  The
    fields never overlap in an emitted word, so `|` is written as `+`, shifts
    by a constant as `*` and `/`, and masks as `%`. */
module Words {

  datatype Option<+T> = None | Some(value: T) {
    function GetOr(default: T): T {
      if None? then default else value
    }
  }

  const ENOENT := 2
  const ENOMEM := 12
  const EINVAL := 22
  const EOVERFLOW := 75
  const EILSEQ := 84

  /** The width of `uintptr_t` on the host. */
  datatype Width = W32 | W64 {
    function Bytes(): nat {
      if W32? then 4 else 8
    }

    /** Number of values a `uintptr_t` can take. */
    function Range(): nat {
      if W32? then 0x1_0000_0000 else 0x1_0000_0000_0000_0000
    }

    /** VM_ALIGN_TO_INSTR: words needed to hold `nbyte` bytes. */
    function Cells(nbyte: nat): nat {
      (nbyte + Bytes() - 1) / Bytes()
    }
  }

  /** Conversion to a C `int`. */
  function CInt(x: int): (r: int)
    ensures -0x8000_0000 <= r < 0x8000_0000
    ensures (x - r) % 0x1_0000_0000 == 0
  {
    var m := x % 0x1_0000_0000;
    if m < 0x8000_0000 then m else m - 0x1_0000_0000
  }

  /** Conversion to a `uintptr_t`. */
  function Uptr(w: Width, x: int): nat {
    x % w.Range()
  }

  // Opcodes.
  const OP_PUSH := 1
  const OP_POP := 2
  const OP_FILTER := 3
  const OP_UPDATE := 4
  const OP_SET := 5
  const OP_GET := 6
  const OP_CREATE := 7
  const OP_CALL := 8
  const OP_CMP := 9
  const OP_BRANCH := 10
  const OP_DEBUG := 11
  const OP_HALT := 12
  const OP_REPLACE := 13

  // Type tags of PUSH.
  const TYPE_INTEGER := 2
  const TYPE_DOUBLE := 3
  const TYPE_STRING := 4
  const TYPE_LOCAL := 5
  const TYPE_GLOBAL := 6

  // Relational operators of CMP; selectors use the first two.
  const RELOP_EQ := 1
  const RELOP_NE := 2
  const RELOP_LT := 3
  const RELOP_LE := 4
  const RELOP_GT := 5
  const RELOP_GE := 6
  const RELOP_NOT := 7

  const BRANCH_ALWAYS := 0
  const BRANCH_EQ := 1
  const BRANCH_NE := 2

  const ASSIGN_PARTIAL := 0x80
  const GET_FIELD := 0x0080_0000
  const GET_LOCAL := 0x0040_0000
  const DRESVAR_ID := 0x0500_0000

  /** A decoded instruction word.  `BadPush` and `BadPop` are words whose
      operand kind the VM rejects; `Unmodelled` covers CREATE, DEBUG and GET of
      a named variable, which the compiler never emits. */
  datatype Instr =
    | PushInt(data: nat)
    | PushDouble
    | PushString(len: nat)
    | PushGlobal(len: nat)
    | PushLocals(count: nat)
    | BadPush
    | PopLocals
    | PopDiscard
    | BadPop
    | Filter(nfield: int)
    | Update(nfield: int, partial: bool)
    | Replace(nfield: int)
    | SetVar
    | SetField
    | GetField
    | GetLocal(idx: nat)
    | Call(narg: int)
    | Cmp(op: nat)
    | Branch(kind: nat, diff: int)
    | Halt
    | Unmodelled
    | Illegal

  /** VM_INSTR with an `int` argument. */
  function IntWord(w: Width, op: nat, args: int): nat {
    Uptr(w, CInt(op + args * 0x100))
  }

  /** VM_PUSH_INSTR. */
  function PushWord(w: Width, tag: nat, data: int): nat {
    IntWord(w, OP_PUSH, CInt(data * 0x100 + tag))
  }

  /** VM_INSTR_UPDATE and VM_INSTR_REPLACE build their word as a `uintptr_t`. */
  function UpdateWord(w: Width, n: nat, partial: bool): nat {
    Uptr(w, OP_UPDATE + (n + if partial && n / ASSIGN_PARTIAL % 2 == 0 then ASSIGN_PARTIAL else 0) * 0x100)
  }

  function ReplaceWord(w: Width, n: nat): nat {
    Uptr(w, OP_REPLACE + n * 0x100)
  }

  /** VM_INSTR_GET_LOCAL, given the full identifier of a local variable. */
  function GetLocalWord(w: Width, idx: nat): nat {
    IntWord(w, OP_GET, GET_LOCAL + DRESVAR_ID + idx)
  }

  /** The distance field of a branch word. */
  function BranchField(diff: int): (d: nat)
    ensures d < 0x40_0000
  {
    if diff < 0 then 0x20_0000 + -diff % 0x20_0000 else diff % 0x20_0000
  }

  /** VM_INSTR_BRANCH and VM_BRANCH_PATCH. */
  function BranchWord(w: Width, kind: nat, diff: int): nat {
    Uptr(w, OP_BRANCH + (kind * 0x40_0000 + BranchField(diff)) * 0x100)
  }

  function DecodePush(tag: nat, data: nat): Instr {
    if tag == TYPE_INTEGER then PushInt(data)
    else if tag == TYPE_DOUBLE then PushDouble
    else if tag == TYPE_STRING then PushString(data)
    else if tag == TYPE_GLOBAL then PushGlobal(data)
    else if tag == TYPE_LOCAL then PushLocals(data)
    else BadPush
  }

  function DecodeUpdate(args: nat): Instr {
    var partial := args / ASSIGN_PARTIAL % 2 == 1;
    Update(CInt(if partial then args - ASSIGN_PARTIAL else args), partial)
  }

  function DecodeGet(args: nat): Instr {
    if args / GET_FIELD % 2 == 1 then GetField
    else if args / GET_LOCAL % 2 == 1 then GetLocal((args - GET_LOCAL) % 0x100_0000)
    else Unmodelled
  }

  function DecodeBranch(args: nat): Instr {
    var magnitude: int := args % 0x40_0000;
    Branch(args / 0x40_0000, if args / 0x20_0000 % 2 == 1 then -magnitude else magnitude)
  }

  function DecodeArgs(op: nat, args: nat): Instr {
    if op == OP_PUSH then DecodePush(args % 0x100, args / 0x100)
    else if op == OP_POP then
      if args == 0 then PopLocals else if args == 1 then PopDiscard else BadPop
    else if op == OP_FILTER then Filter(CInt(args))
    else if op == OP_UPDATE then DecodeUpdate(args)
    else if op == OP_SET then
      if args == 0 then SetVar else SetField
    else if op == OP_GET then DecodeGet(args)
    else if op == OP_CREATE || op == OP_DEBUG then Unmodelled
    else if op == OP_CALL then Call(CInt(args))
    else if op == OP_CMP then Cmp(args)
    else if op == OP_BRANCH then DecodeBranch(args)
    else if op == OP_HALT then Halt
    else if op == OP_REPLACE then Replace(CInt(args))
    else Illegal
  }

  /** VM_OP_CODE and VM_OP_ARGS with the argument macro of each opcode. */
  function Decode(word: nat): Instr {
    DecodeArgs(word % 0x100, word / 0x100)
  }

  // ------------------------------------------------------------------
  // Decoding inverts encoding
  // ------------------------------------------------------------------

  /** The largest operand a PUSH word can carry: the word is built as an `int`,
      and a negative `int` grows 32 one-bits when `uintptr_t` has 64 bits. */
  function PushLimit(w: Width): nat {
    if w.W32? then 0x1_0000 else 0x8000
  }

  function PushData(word: nat): nat {
    word / 0x1_0000
  }

  /** The fields of a word made of three disjoint parts. */
  lemma Fields(low: nat, mid: nat, high: nat)
    requires low < 0x100 && mid < 0x100
    ensures (low + 0x100 * mid + 0x1_0000 * high) % 0x100 == low
    ensures (low + 0x100 * mid + 0x1_0000 * high) / 0x100 == mid + 0x100 * high
    ensures (mid + 0x100 * high) % 0x100 == mid
    ensures (low + 0x100 * mid + 0x1_0000 * high) / 0x1_0000 == high
    ensures (mid + 0x100 * high) / 0x100 == high
  {
  }

  lemma CIntOf(x: int)
    requires -0x8000_0000 <= x < 0x1_0000_0000
    ensures CInt(x) == if x < 0x8000_0000 then x else x - 0x1_0000_0000
  {
  }

  lemma CIntShift(x: int, k: int)
    ensures CInt(x + k * 0x1_0000_0000) == CInt(x)
  {
  }

  lemma CIntUptr(w: Width, v: int)
    requires -0x8000_0000 <= v < 0x8000_0000
    ensures CInt(Uptr(w, v)) == v
  {
    if v < 0 {
      if w.W64? {
        assert Uptr(w, v) == v + 0x1_0000_0000 * 0x1_0000_0000;
        CIntShift(v, 0x1_0000_0000);
      } else {
        assert Uptr(w, v) == v + 0x1_0000_0000;
      }
    }
    CIntOf(v);
  }

  lemma PushWordValue(w: Width, tag: nat, data: nat)
    requires tag < 0x100
    requires data < 0x1_0000
    ensures PushWord(w, tag, data) == 1 + 0x100 * tag + 0x1_0000 * data
                                      + if data < PushLimit(w) then 0 else 0xFFFF_FFFF_0000_0000
  {
    CIntOf(data * 0x100 + tag);
    var x := 1 + 0x100 * tag + 0x1_0000 * data;
    CIntOf(x);
    assert PushWord(w, tag, data) == Uptr(w, CInt(x));
  }

  /** The operand of a PUSH survives its word exactly below the limit. */
  lemma PushWordExact(w: Width, tag: nat, data: nat)
    requires tag < 0x100 && data < 0x1_0000
    ensures PushWord(w, tag, data) % 0x100 == OP_PUSH
    ensures PushWord(w, tag, data) / 0x100 % 0x100 == tag
    ensures PushData(PushWord(w, tag, data)) == data <==> data < PushLimit(w)
  {
    PushWordValue(w, tag, data);
    Fields(1, tag, if data < PushLimit(w) then data else data + 0xFFFF_FFFF_0000);
  }

  /** The words VM_INSTR_PUSH_INT emits. */
  function PushIntWords(w: Width, v: int): seq<nat> {
    if 0 <= v < 0xfffe then [PushWord(w, TYPE_INTEGER, v + 1)]
    else [PushWord(w, TYPE_INTEGER, 0), Uptr(w, v)]
  }

  /** The integer vm_instr_push reads back from the words at the program counter. */
  function PushedInt(words: seq<nat>): int
    requires |words| > 0
    requires PushData(words[0]) == 0 ==> |words| > 1
  {
    var data := PushData(words[0]);
    CInt(if data != 0 then data - 1 else words[1])
  }

  /** What an emitted integer literal evaluates to. */
  function Literal(w: Width, v: int): int {
    if w.W64? && 0x7fff <= v < 0xfffe then v - 0x1_0000 else v
  }

  /** The operand field of an emitted integer. */
  function PushIntData(w: Width, v: int): nat {
    if 0 <= v < 0xfffe then
      if v + 1 < PushLimit(w) then v + 1 else v + 1 + 0xFFFF_FFFF_0000
    else 0
  }

  lemma PushIntFields(w: Width, v: int)
    ensures PushIntWords(w, v)[0] == OP_PUSH + 0x100 * TYPE_INTEGER + 0x1_0000 * PushIntData(w, v)
    ensures PushData(PushIntWords(w, v)[0]) == PushIntData(w, v)
  {
    PushWordValue(w, TYPE_INTEGER, if 0 <= v < 0xfffe then v + 1 else 0);
    Fields(OP_PUSH, TYPE_INTEGER, PushIntData(w, v));
  }

  lemma PushIntValue(w: Width, v: int)
    requires -0x8000_0000 <= v < 0x8000_0000
    ensures CInt(if PushIntData(w, v) != 0 then PushIntData(w, v) - 1 else Uptr(w, v)) == Literal(w, v)
  {
    if PushIntData(w, v) == 0 {
      CIntUptr(w, v);
    } else if v + 1 < PushLimit(w) {
      CIntOf(v);
    } else {
      CIntOf(v - 0x1_0000);
      CIntShift(v - 0x1_0000, 0x1_0000);
    }
  }

  lemma PushIntDecodes(w: Width, v: int)
    requires -0x8000_0000 <= v < 0x8000_0000
    ensures Decode(PushIntWords(w, v)[0]) == PushInt(PushIntData(w, v))
    ensures PushData(PushIntWords(w, v)[0]) == PushIntData(w, v)
    ensures PushIntData(w, v) == 0 ==> |PushIntWords(w, v)| > 1
    ensures PushedInt(PushIntWords(w, v)) == Literal(w, v)
  {
    PushIntFields(w, v);
    PushIntValue(w, v);
    Fields(OP_PUSH, TYPE_INTEGER, PushIntData(w, v));
  }

  /** Decoding an emitted PUSH. */
  lemma PushDecodes(w: Width, tag: nat, data: nat)
    requires tag < 0x100 && data < PushLimit(w)
    ensures Decode(PushWord(w, tag, data)) == DecodePush(tag, data)
  {
    PushWordValue(w, tag, data);
    Fields(OP_PUSH, tag, data);
  }

  /** An integer literal is pushed as itself on every host, except that a 64-bit
      host gets the ones between 0x7fff and 0xfffd wrong. */
  lemma PushIntRoundTrip(w: Width, v: int)
    requires -0x8000_0000 <= v < 0x8000_0000
    ensures PushData(PushIntWords(w, v)[0]) == 0 ==> |PushIntWords(w, v)| > 1
    ensures PushedInt(PushIntWords(w, v)) == v <==> !(w.W64? && 0x7fff <= v < 0xfffe)
  {
    PushIntDecodes(w, v);
  }

  /** A witness of the loss. */
  lemma PushIntLosesLiteral()
    ensures PushData(PushIntWords(W64, 40000)[0]) != 0
    ensures PushedInt(PushIntWords(W64, 40000)) == -25536
  {
    PushIntDecodes(W64, 40000);
  }

  lemma BranchWordValue(w: Width, kind: nat, diff: int)
    requires kind <= BRANCH_NE
    ensures BranchWord(w, kind, diff)
         == OP_BRANCH + (kind * 0x40_0000 + BranchField(diff)) * 0x100
  {
  }

  lemma BranchWordDecodes(kind: nat, d: nat)
    requires kind <= BRANCH_NE && d < 0x40_0000
    ensures Decode(OP_BRANCH + (kind * 0x40_0000 + d) * 0x100)
         == var e: int := d; Branch(kind, if d < 0x20_0000 then e else -e)
  {
    var args := kind * 0x40_0000 + d;
    SplitWord(OP_BRANCH, args);
    assert args / 0x40_0000 == kind && args % 0x40_0000 == d;
    assert args / 0x20_0000 == 2 * kind + if d < 0x20_0000 then 0 else 1;
  }

  /** The distance the decoder makes of that field. */
  lemma BranchFieldRead(diff: int)
    ensures var d: int := BranchField(diff);
            (if d < 0x20_0000 then d else -d) == diff <==> 0 <= diff < 0x20_0000 || -0x40_0000 < diff <= -0x20_0000
  {
    if -0x40_0000 < diff <= -0x20_0000 {
      assert -diff % 0x20_0000 == -diff - 0x20_0000;
    }
  }

  /** A branch keeps its kind.  It keeps its distance if it goes forward by less
      than 2^21 words; since the mask of the decoder covers the sign bit, the
      only backward distances it keeps are the ones of 2^21 up to 2^22 words. */
  lemma BranchRoundTrip(w: Width, kind: nat, diff: int)
    requires kind <= BRANCH_NE
    ensures Decode(BranchWord(w, kind, diff)).Branch?
    ensures Decode(BranchWord(w, kind, diff)).kind == kind
    ensures Decode(BranchWord(w, kind, diff)).diff == diff
      <==> 0 <= diff < 0x20_0000 || -0x40_0000 < diff <= -0x20_0000
  {
    hide BranchWord, Decode, BranchField;
    BranchWordValue(w, kind, diff);
    BranchWordDecodes(kind, BranchField(diff));
    BranchFieldRead(diff);
  }

  lemma GetLocalDecodes(w: Width, idx: nat)
    requires idx < GET_LOCAL
    ensures Decode(GetLocalWord(w, idx)) == GetLocal(idx)
  {
    hide Decode, DecodeArgs;
    CIntOf(OP_GET + (GET_LOCAL + idx) * 0x100);
    CIntShift(OP_GET + (GET_LOCAL + idx) * 0x100, 5);
    assert GetLocalWord(w, idx) == OP_GET + (GET_LOCAL + idx) * 0x100;
    SplitWord(OP_GET, GET_LOCAL + idx);
    GetLocalArgs(idx);
  }

  lemma GetLocalArgs(idx: nat)
    requires idx < GET_LOCAL
    ensures DecodeArgs(OP_GET, GET_LOCAL + idx) == GetLocal(idx)
  {
  }

  lemma UpdateWordDecodes(args: nat)
    requires args < 0x8000_0000
    ensures Decode(OP_UPDATE + args * 0x100)
         == if args / ASSIGN_PARTIAL % 2 == 1 then Update(args - ASSIGN_PARTIAL, true) else Update(args, false)
  {
    SplitWord(OP_UPDATE, args);
    CIntOf(args);
    if args / ASSIGN_PARTIAL % 2 == 1 {
      CIntOf(args - ASSIGN_PARTIAL);
    }
  }

  /** The number of match fields and the partial flag share bit 7 of the UPDATE
      operand: they survive together exactly when the count stays clear of it. */
  lemma UpdateRoundTrip(w: Width, n: nat, partial: bool)
    requires n < 0x7f_ffff
    ensures Decode(UpdateWord(w, n, partial)) == Update(n, partial) <==> n / ASSIGN_PARTIAL % 2 == 0
  {
    hide UpdateWord, Decode;
    var args := n + if partial && n / ASSIGN_PARTIAL % 2 == 0 then ASSIGN_PARTIAL else 0;
    UpdateWordValue(w, n, partial);
    UpdateWordDecodes(args);
    PartialBit(n);
  }

  lemma PartialBit(n: nat)
    ensures n / ASSIGN_PARTIAL % 2 == 0 ==> (n + ASSIGN_PARTIAL) / ASSIGN_PARTIAL % 2 == 1
  {
    assert (n + ASSIGN_PARTIAL) / ASSIGN_PARTIAL == n / ASSIGN_PARTIAL + 1;
  }

  lemma UpdateWordValue(w: Width, n: nat, partial: bool)
    requires n < 0x7f_ffff
    ensures UpdateWord(w, n, partial)
         == OP_UPDATE + (n + if partial && n / ASSIGN_PARTIAL % 2 == 0 then ASSIGN_PARTIAL else 0) * 0x100
  {
  }

  lemma ReplaceDecodes(w: Width, n: nat)
    requires n < 0x7f_ffff
    ensures Decode(ReplaceWord(w, n)) == Replace(n)
  {
    assert ReplaceWord(w, n) == OP_REPLACE + n * 0x100;
    SplitWord(OP_REPLACE, n);
    CIntOf(n);
  }

  lemma SplitWord(op: nat, args: nat)
    requires op < 0x100
    ensures Decode(op + args * 0x100) == DecodeArgs(op, args)
  {
    assert (op + args * 0x100) % 0x100 == op && (op + args * 0x100) / 0x100 == args;
  }

  /** Words of the form VM_INSTR(op, n) for a small non-negative `int`. */
  lemma IntWordDecodes(w: Width, op: nat, n: nat)
    requires op < 0x100 && n < 0x7f_ffff
    ensures Decode(IntWord(w, op, n)) == DecodeArgs(op, n)
    ensures CInt(n) == n
  {
    CIntOf(op + n * 0x100);
    CIntOf(n);
    assert IntWord(w, op, n) == op + n * 0x100;
    SplitWord(op, n);
  }

  /** The word of GET FIELD is negative as an `int`; the flag survives that. */
  lemma GetFieldDecodes(w: Width)
    ensures Decode(IntWord(w, OP_GET, GET_FIELD)) == GetField
  {
    hide Decode, DecodeArgs;
    var x := -0x7FFF_FFFA;
    CIntOf(0x8000_0006);
    assert CInt(OP_GET + GET_FIELD * 0x100) == x;
    var args := if w.W32? then GET_FIELD else GET_FIELD + 0xFF_FFFF_FF00_0000;
    WrapsAround(w, x);
    SplitWord(OP_GET, args);
    GetFieldArgs(args);
  }

  lemma WrapsAround(w: Width, x: int)
    requires x < 0 <= x + w.Range()
    ensures Uptr(w, x) == x + w.Range()
  {
  }

  lemma GetFieldArgs(args: nat)
    requires args == GET_FIELD || args == GET_FIELD + 0xFF_FFFF_FF00_0000
    ensures DecodeArgs(OP_GET, args) == GetField
  {
  }

  // ------------------------------------------------------------------
  // Bytes and words
  // ------------------------------------------------------------------

  function Power(base: nat, n: nat): nat {
    if n == 0 then 1 else base * Power(base, n - 1)
  }

  /** A word has as many bytes as its values need. */
  lemma WordBytes(w: Width)
    ensures Power(256, w.Bytes()) == w.Range()
  {
    assert Power(256, 4) == 0x1_0000_0000;
    assert Power(256, 8) == 0x1_0000_0000 * Power(256, 4);
  }

  /** The least number of words that hold some bytes. */
  lemma CellsHold(w: Width, nbyte: nat)
    ensures nbyte <= w.Cells(nbyte) * w.Bytes()
    ensures nbyte > 0 ==> (w.Cells(nbyte) - 1) * w.Bytes() < nbyte
    ensures w.Cells(0) == 0
  {
  }
}
