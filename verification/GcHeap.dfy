/** The heap: regions filled with objects from the bottom, pinned objects and symbols outside the
    regions, and the root slots. */
module GcHeap {
  import opened GcMemory

  // Addresses count words.
  const WORD_SIZE := 8

  // [data, pos) holds objects, [pos, end) is free.  sizeof(Region) words precede data.
  datatype Region = Region(data: Addr, pos: Addr, end: Addr)

  const REGION_HEADER := 4

  datatype Root = Root(at: Addr, sort: Sort)

  /** An object and where it lies; pinned objects and symbols have region -1. */
  datatype Obj = Obj(region: int, at: Addr, size: int)

  datatype View = View(
    mem: Memory,
    regions: seq<Region>,
    objs: seq<Obj>,        // the objects of the regions, in the order the regions are walked
    pinned: seq<Addr>,
    symbols: seq<Addr>,
    roots: seq<Root>)
  {
    /** All the objects: those of the regions, then the pinned ones, then the symbols. */
    ghost function Count(): nat {
      |objs| + |pinned| + |symbols|
    }

    ghost function ObjAt(k: int): Obj
      requires 0 <= k < Count()
    {
      if k < |objs| then objs[k]
      else if k < |objs| + |pinned| then PinnedObj(mem, pinned[k - |objs|])
      else PinnedObj(mem, symbols[k - |objs| - |pinned|])
    }

    ghost function Addresses(): set<Addr> {
      set k | 0 <= k < Count() :: ObjAt(k).at
    }

    /** The reference word w in a place of the given sort denotes an object of the heap, and it
        is an interior pointer exactly when that object is a block. */
    ghost predicate Resolves(s: Sort, w: Word) {
      IsRef(s, w) ==>
        && Target(s, w) in Addresses()
        && (s == CharData <==> KindAt(mem, Target(s, w)) == Block)
    }

    ghost predicate ObjOk(k: int)
      requires 0 <= k < Count()
    {
      HeaderOk(mem, ObjAt(k))
    }

    ghost predicate ObjResolves(k: int)
      requires 0 <= k < Count()
    {
      var o := ObjAt(k).at;
      forall f :: IsSlot(mem, o, f) ==> Resolves(SortOf(KindAt(mem, o), f), At(mem, o + f))
    }

    ghost predicate Separate(i: int, j: int)
      requires 0 <= i < Count() && 0 <= j < Count()
    {
      ObjsApart(ObjAt(i), ObjAt(j))
    }

    ghost predicate OutsideRegions(k: int, r: int)
      requires 0 <= k < Count() && 0 <= r < |regions|
    {
      OutsideRegion(ObjAt(k), regions[r])
    }

    ghost predicate RootOk(i: int)
      requires 0 <= i < |roots|
    {
      0 < roots[i].at < |mem| && Resolves(roots[i].sort, At(mem, roots[i].at))
    }

    ghost predicate RootsDistinct(i: int, j: int)
      requires 0 <= i < |roots| && 0 <= j < |roots|
    {
      roots[i].at != roots[j].at
    }

    ghost predicate RootOutsideObj(i: int, k: int)
      requires 0 <= i < |roots| && 0 <= k < Count()
    {
      !WithinObj(roots[i].at, ObjAt(k))
    }

    ghost predicate RootOutsideRegion(i: int, r: int)
      requires 0 <= i < |roots| && 0 <= r < |regions|
    {
      !(regions[r].data <= roots[i].at < regions[r].end)
    }

    /** Everything but the mark bits and the data words. */
    ghost predicate Layout() {
      && Geometry(|mem|, regions)
      && Tiling(regions, objs)
      && (forall k :: 0 <= k < Count() ==> ObjOk(k))
      && (forall k :: 0 <= k < Count() ==> ObjResolves(k))
      && (forall i, j :: 0 <= i < j < Count() ==> Separate(i, j))
      && (forall k, r :: |objs| <= k < Count() && 0 <= r < |regions| ==> OutsideRegions(k, r))
      && (forall i :: 0 <= i < |roots| ==> RootOk(i))
      && (forall i, j :: 0 <= i < j < |roots| ==> RootsDistinct(i, j))
      && (forall i, k :: 0 <= i < |roots| && 0 <= k < Count() ==> RootOutsideObj(i, k))
      && (forall i, r :: 0 <= i < |roots| && 0 <= r < |regions| ==> RootOutsideRegion(i, r))
    }

    ghost predicate ObjIdle(k: int)
      requires 0 <= k < Count()
    {
      At(mem, ObjAt(k).at + DATA) == Ptr(NULL) && !MarkedAt(mem, ObjAt(k).at)
    }

    /** Between collections no object is marked and every list is empty. */
    ghost predicate Idle() {
      forall k :: 0 <= k < Count() ==> ObjIdle(k)
    }

    ghost predicate Valid() {
      Layout() && Idle()
    }
  }

  function PinnedObj(m: Memory, o: Addr): Obj {
    Obj(-1, o, SizeAt(m, o))
  }

  ghost predicate Geometry(bound: int, regions: seq<Region>) {
    && 0 < |regions|
    && (forall r :: 0 <= r < |regions| ==> 0 < regions[r].data <= regions[r].pos <= regions[r].end <= bound)
    && (forall r, q :: 0 <= r < q < |regions| ==> RegionsApart(regions[r], regions[q]))
  }

  predicate RegionsApart(a: Region, b: Region) {
    a.end <= b.data || b.end <= a.data
  }

  /** The walk that has just passed address p of region r comes to object k next, or to the end
      of the heap when k == |objs|; regions without objects are passed over. */
  ghost predicate Leads(regions: seq<Region>, objs: seq<Obj>, r: int, p: Addr, k: int)
    requires 0 <= r < |regions| && 0 <= k <= |objs|
  {
    if k == |objs| then
      p == regions[r].pos && EmptyBetween(regions, r, |regions|)
    else if objs[k].region == r then
      p == objs[k].at && p != regions[r].pos
    else
      && p == regions[r].pos
      && r < objs[k].region < |regions|
      && EmptyBetween(regions, r, objs[k].region)
      && objs[k].at == regions[objs[k].region].data
      && objs[k].at != regions[objs[k].region].pos
  }

  ghost predicate EmptyBetween(regions: seq<Region>, r: int, q: int)
    requires 0 <= r && q <= |regions|
  {
    forall i :: r < i < q ==> regions[i].data == regions[i].pos
  }

  ghost predicate InRegion(regions: seq<Region>, o: Obj) {
    && 0 <= o.region < |regions|
    && FREE_BLOCK <= o.size
    && regions[o.region].data <= o.at
    && o.at + o.size <= regions[o.region].pos
  }

  /** Every region's [data, pos) is exactly tiled by its objects. */
  ghost predicate Tiling(regions: seq<Region>, objs: seq<Obj>) {
    && 0 < |regions|
    && (forall k :: 0 <= k < |objs| ==> InRegion(regions, objs[k]))
    && Leads(regions, objs, 0, regions[0].data, 0)
    && (forall k :: 0 <= k < |objs| ==> LeadsOn(regions, objs, k))
  }

  ghost predicate LeadsOn(regions: seq<Region>, objs: seq<Obj>, k: int)
    requires 0 <= k < |objs| && 0 <= objs[k].region < |regions|
  {
    Leads(regions, objs, objs[k].region, objs[k].at + objs[k].size, k + 1)
  }

  ghost predicate HeaderOk(m: Memory, o: Obj) {
    && 0 < o.at
    && FREE_BLOCK <= o.size == SizeAt(m, o.at)
    && o.at + o.size <= |m|
    && At(m, o.at + DATA).Ptr?
    && At(m, o.at + BITS).Bits?
    && KindAt(m, o.at) != FreeRun
    && (!KindAt(m, o.at).Record? ==> At(m, o.at + EXTRA).Num?)
  }

  ghost predicate ObjsApart(a: Obj, b: Obj) {
    a.at + a.size <= b.at || b.at + b.size <= a.at
  }

  ghost predicate OutsideRegion(o: Obj, region: Region) {
    o.at + o.size <= region.data || region.end <= o.at
  }

  predicate WithinObj(a: Addr, o: Obj) {
    o.at <= a < o.at + o.size
  }

  /** Walk order is address order: an object ends before the next one of its region starts. */
  ghost predicate Before(a: Obj, b: Obj) {
    a.region < b.region || (a.region == b.region && a.at + a.size <= b.at)
  }

  lemma {:induction false} TilingIsOrdered(regions: seq<Region>, objs: seq<Obj>, i: int, j: int)
    requires Tiling(regions, objs) && 0 <= i < j < |objs|
    ensures Before(objs[i], objs[j])
    decreases j
  {
    assert LeadsOn(regions, objs, j - 1);
    if i < j - 1 {
      TilingIsOrdered(regions, objs, i, j - 1);
    }
  }
}
