/** The word-addressed memory the collector works on, and how an object is read out of it.

    An object starts with a data word (shared by the mark list and the thread list in release
    builds), then the type and mark bits, then, for tuples, blocks and free blocks, one more
    header word.  `NULL` is `list_end`. */
module GcMemory {

  type Addr = int

  const NULL: Addr := 0

  // Offsets of the header words.
  const DATA := 0
  const BITS := 1
  const EXTRA := 2

  // sizeof(Tuple), sizeof(VariableBlock) and sizeof(FreeBlock), in words.
  const TUPLE_HEADER := 3
  const BLOCK_HEADER := 3
  const FREE_BLOCK := 3

  /** How the mark function of a class treats one of its words: not at all, as a tagged value,
      as a pointer which may be null, or as the character data of a CharArray, which is the
      interior of a block. */
  datatype Sort = Raw | ValueRef | PointerRef | CharData

  /** The type tag.  A fixed-size class is given by the sorts of its words. */
  datatype Kind = Record(fields: seq<Sort>) | ValueTuple | PointerTuple | Block | FreeRun

  datatype Word = Num(n: int) | Bits(kind: Kind, marked: bool) | Ptr(to: Addr)

  type Memory = seq<Word>

  // Total reads, for specifications: the methods index the memory directly.
  function At(m: Memory, a: Addr): Word {
    if 0 <= a < |m| then m[a] else Num(0)
  }

  function KindAt(m: Memory, o: Addr): Kind {
    var w := At(m, o + BITS);
    if w.Bits? then w.kind else FreeRun
  }

  predicate MarkedAt(m: Memory, o: Addr) {
    At(m, o + BITS).Bits? && At(m, o + BITS).marked
  }

  function NumAt(m: Memory, a: Addr): int {
    if At(m, a).Num? then At(m, a).n else 0
  }

  /** SizeOf<type>::func */
  function SizeAt(m: Memory, o: Addr): int {
    match KindAt(m, o)
    case Record(fields) => 2 + |fields|
    case ValueTuple => TUPLE_HEADER + NumAt(m, o + EXTRA)
    case PointerTuple => TUPLE_HEADER + NumAt(m, o + EXTRA)
    case Block => NumAt(m, o + EXTRA)
    case FreeRun => FREE_BLOCK
  }

  function SortOf(kind: Kind, f: int): Sort {
    match kind
    case Record(fields) => if 2 <= f < 2 + |fields| then fields[f - 2] else Raw
    case ValueTuple => if TUPLE_HEADER <= f then ValueRef else Raw
    case PointerTuple => if TUPLE_HEADER <= f then PointerRef else Raw
    case Block => Raw
    case FreeRun => Raw
  }

  /** Whether a word of the given sort is handed to mark_pointer or thread_data. */
  predicate IsRef(s: Sort, w: Word) {
    match s
    case Raw => false
    case ValueRef => w.Ptr?
    case PointerRef => w.Ptr? && w.to != NULL
    case CharData => w.Ptr? && w.to != NULL
  }

  /** The object a reference word denotes: from_memory for character data. */
  function Target(s: Sort, w: Word): Addr
    requires IsRef(s, w)
  {
    if s == CharData then w.to - BLOCK_HEADER else w.to
  }

  /** The offset of the words that refer to an object of this kind. */
  function Bias(kind: Kind): int {
    if kind == Block then BLOCK_HEADER else 0
  }

  predicate IsSlot(m: Memory, o: Addr, f: int) {
    2 <= f < SizeAt(m, o) && IsRef(SortOf(KindAt(m, o), f), At(m, o + f))
  }

  function SlotTarget(m: Memory, o: Addr, f: int): Addr
    requires IsSlot(m, o, f)
  {
    Target(SortOf(KindAt(m, o), f), At(m, o + f))
  }

  /** What a chain of slots looks like at position i: the next slot, or the end of the list. */
  function Link(c: seq<Addr>, i: nat): Word {
    if i < |c| then Ptr(c[i]) else Ptr(NULL)
  }

  /** The i-th slot of the chain holds the address of the next one. */
  ghost predicate Linked(m: Memory, c: seq<Addr>, i: nat)
    requires i < |c|
  {
    At(m, c[i]) == Link(c, i + 1)
  }

  ghost predicate NoDuplicates<T>(s: seq<T>) {
    forall i, j :: 0 <= i < j < |s| ==> s[i] != s[j]
  }
}
