/** The collector's mutable state. */
module GcState {
  import opened GcMemory
  import opened GcHeap

  /** All of the state but what is known about it only. */
  datatype Snapshot = Snapshot(mem: Memory, regions: seq<Region>, current: nat, pages: nat,
                               pinned: seq<Addr>, symbols: seq<Addr>, roots: seq<Root>)

  class Heap {
    var mem: Memory
    var regions: seq<Region>
    var current: nat           // the region allocation happens in
    var pages: nat             // the size of the next region
    var pinned: seq<Addr>      // heap_list
    var symbols: seq<Addr>     // symbol_pool_list
    var roots: seq<Root>       // the slots visited by each_root
    ghost var objs: seq<Obj>

    constructor (mem: Memory, roots: seq<Root>)
      ensures this.mem == mem && regions == [] && current == 0 && pages == 32
      ensures pinned == [] && symbols == [] && this.roots == roots && objs == []
    {
      this.mem, this.roots := mem, roots;
      regions, current, pages := [], 0, 32;
      pinned, symbols, objs := [], [], [];
    }

    function Now(): Snapshot
      reads this
    {
      Snapshot(mem, regions, current, pages, pinned, symbols, roots)
    }

    ghost function View(): View
      reads this
    {
      GcHeap.View.View(mem, regions, objs, pinned, symbols, roots)
    }
  }
}
