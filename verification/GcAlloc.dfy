/** Allocation, and every run of a program over allocations, loads, stores and collections. */
module GcAlloc {
  import opened GcMemory
  import opened GcHeap
  import opened GcState
  import opened GcPlan
  import opened GcGraph
  import opened GcBackward

  const MAX_REGION_ALLOC := 0x200 / WORD_SIZE

  // ----- adding one object -----------------------------------------------------------------

  /** The object with index k of the new heap: the new one is at index i. */
  ghost predicate Shifted(v: View, c: View, i: int, o: Obj, k: int)
    requires c.Count() == v.Count() + 1 && 0 <= k < c.Count() && 0 <= i <= v.Count()
  {
    c.ObjAt(k) == if k < i then v.ObjAt(k) else if k == i then o else v.ObjAt(k - 1)
  }

  ghost predicate NewObject(m: Memory, o: Obj) {
    && HeaderOk(m, o)
    && At(m, o.at + DATA) == Ptr(NULL)
    && !MarkedAt(m, o.at)
    && (forall f :: !IsSlot(m, o.at, f))
  }

  /** c is v with one more object, o, in a place not in use. */
  ghost predicate Added(v: View, c: View, i: int, o: Obj) {
    && 0 <= i <= v.Count() && c.Count() == v.Count() + 1
    && |c.mem| == |v.mem| && c.roots == v.roots
    && (forall k {:trigger Shifted(v, c, i, o, k)} :: 0 <= k < c.Count() ==> Shifted(v, c, i, o, k))
    && (forall a :: !WithinObj(a, o) ==> At(c.mem, a) == At(v.mem, a))
    && NewObject(c.mem, o)
    && (forall k {:trigger ApartFrom(v, o, k)} :: 0 <= k < v.Count() ==> ApartFrom(v, o, k))
    && (forall r {:trigger RootApartFrom(v, o, r)} :: 0 <= r < |v.roots| ==> RootApartFrom(v, o, r))
    && Geometry(|c.mem|, c.regions) && Tiling(c.regions, c.objs)
    && (forall k, r :: |c.objs| <= k < c.Count() && 0 <= r < |c.regions| ==> c.OutsideRegions(k, r))
    && (forall i, r :: 0 <= i < |c.roots| && 0 <= r < |c.regions| ==> c.RootOutsideRegion(i, r))
  }

  ghost predicate ApartFrom(v: View, o: Obj, k: int)
    requires 0 <= k < v.Count()
  {
    ObjsApart(v.ObjAt(k), o)
  }

  ghost predicate RootApartFrom(v: View, o: Obj, r: int)
    requires 0 <= r < |v.roots|
  {
    !WithinObj(v.roots[r].at, o)
  }

  /** Objects present before read as before. */
  lemma OldObject(v: View, c: View, i: int, o: Obj, k: int)
    requires v.Valid() && Added(v, c, i, o) && 0 <= k < v.Count()
    ensures var n := if k < i then k else k + 1; c.ObjAt(n) == v.ObjAt(k)
    ensures HeaderOk(c.mem, v.ObjAt(k)) && KindAt(c.mem, v.ObjAt(k).at) == KindAt(v.mem, v.ObjAt(k).at)
    ensures At(c.mem, v.ObjAt(k).at) == Ptr(NULL) && !MarkedAt(c.mem, v.ObjAt(k).at)
    ensures forall a :: WithinObj(a, v.ObjAt(k)) ==> At(c.mem, a) == At(v.mem, a)
  {
    assert v.ObjOk(k) && v.ObjIdle(k) && ApartFrom(v, o, k);
    assert Shifted(v, c, i, o, if k < i then k else k + 1);
  }

  lemma OldResolves(v: View, c: View, i: int, o: Obj, s: Sort, w: Word)
    requires v.Valid() && Added(v, c, i, o) && v.Resolves(s, w)
    ensures c.Resolves(s, w)
  {
    if IsRef(s, w) {
      var k :| 0 <= k < v.Count() && v.ObjAt(k).at == Target(s, w);
      OldObject(v, c, i, o, k);
      assert c.ObjAt(if k < i then k else k + 1).at == Target(s, w);
    }
  }

  lemma OldObjResolves(v: View, c: View, i: int, o: Obj, n: int)
    requires v.Valid() && Added(v, c, i, o) && 0 <= n < v.Count()
    ensures var a := v.ObjAt(n).at;
      forall f :: IsSlot(c.mem, a, f) ==> c.Resolves(SortOf(KindAt(c.mem, a), f), At(c.mem, a + f))
  {
    hide Added, View.Resolves;
    OldObject(v, c, i, o, n);
    assert v.ObjOk(n);
    var a := v.ObjAt(n).at;
    forall f | IsSlot(c.mem, a, f) ensures c.Resolves(SortOf(KindAt(c.mem, a), f), At(c.mem, a + f)) {
      assert IsSlot(v.mem, a, f) && v.ObjResolves(n);
      OldResolves(v, c, i, o, SortOf(KindAt(v.mem, a), f), At(v.mem, a + f));
    }
  }

  lemma AddedObject(v: View, c: View, i: int, o: Obj, k: int)
    requires v.Valid() && Added(v, c, i, o) && 0 <= k < c.Count()
    ensures c.ObjOk(k) && c.ObjIdle(k) && c.ObjResolves(k)
  {
    assert Shifted(v, c, i, o, k);
    if k != i {
      var n := if k < i then k else k - 1;
      OldObject(v, c, i, o, n);
      assert v.ObjOk(n);
      OldObjResolves(v, c, i, o, n);
    }
  }

  lemma AddedSeparate(v: View, c: View, i: int, o: Obj, j: int, k: int)
    requires v.Valid() && Added(v, c, i, o) && 0 <= j < k < c.Count()
    ensures c.Separate(j, k)
  {
    assert Shifted(v, c, i, o, j) && Shifted(v, c, i, o, k);
    if j == i {
      assert ApartFrom(v, o, k - 1);
    } else if k == i {
      assert ApartFrom(v, o, j);
    } else {
      NodesApart(v, if j < i then j else j - 1, if k < i then k else k - 1);
    }
  }

  lemma AddingKeepsValid(v: View, c: View, i: int, o: Obj)
    requires v.Valid() && Added(v, c, i, o)
    ensures c.Valid()
  {
    forall k | 0 <= k < c.Count() ensures c.ObjOk(k) && c.ObjIdle(k) && c.ObjResolves(k) {
      AddedObject(v, c, i, o, k);
    }
    forall j, k | 0 <= j < k < c.Count() ensures c.Separate(j, k) {
      AddedSeparate(v, c, i, o, j, k);
    }
    forall r | 0 <= r < |c.roots| ensures c.RootOk(r) {
      assert v.RootOk(r) && RootApartFrom(v, o, r);
      OldResolves(v, c, i, o, v.roots[r].sort, At(v.mem, v.roots[r].at));
    }
    forall r, q | 0 <= r < q < |c.roots| ensures c.RootsDistinct(r, q) {
      assert v.RootsDistinct(r, q);
    }
    forall r, k | 0 <= r < |c.roots| && 0 <= k < c.Count() ensures c.RootOutsideObj(r, k) {
      assert Shifted(v, c, i, o, k) && RootApartFrom(v, o, r);
      if k != i {
        assert v.RootOutsideObj(r, if k < i then k else k - 1);
      }
    }
  }

  // ----- making room -----------------------------------------------------------------------

  /** The range [at, at + n) as the platform hands it out: not in use. */
  predicate Unused(m: Memory, regions: seq<Region>, pinned: seq<Addr>, symbols: seq<Addr>, roots: seq<Root>, at: Addr,
                   n: int) {
    && 0 < at && at + n <= |m|
    && (forall r :: 0 <= r < |regions| ==> at + n <= regions[r].data || regions[r].end <= at)
    && (forall i :: 0 <= i < |pinned| ==> at + n <= pinned[i] || pinned[i] + SizeAt(m, pinned[i]) <= at)
    && (forall i :: 0 <= i < |symbols| ==> at + n <= symbols[i] || symbols[i] + SizeAt(m, symbols[i]) <= at)
    && (forall i :: 0 <= i < |roots| ==> !(at <= roots[i].at < at + n))
  }

  ghost predicate Sized(regions: seq<Region>, r: int)
    requires 0 <= r < |regions|
  {
    PAGE_SIZE <= regions[r].end - (regions[r].data - REGION_HEADER)
  }

  /** What holds between the operations of a program. */
  ghost predicate Sound(h: Heap)
    reads h
  {
    && h.View().Valid()
    && h.current < |h.regions|
    && 1 <= h.pages
    && (forall r :: 0 <= r < |h.regions| ==> Sized(h.regions, r))
  }

  /** Region r has been given the room [at, at + size) at its end; it may be a new region. */
  ghost predicate RoomMade(was: seq<Region>, now: seq<Region>, r: int, at: Addr, size: int) {
    || (0 <= r < |was| && now == Grown(was, r, size) && at == was[r].pos && at + size <= was[r].end)
    || (r == |was| && |now| == r + 1 && now[..r] == was && now[r].data == at && now[r].pos == at + size <= now[r].end)
  }

  /** Where allocate_simple needs the platform: how much it asks for, 0 if there is room left. */
  function RegionBytes(regions: seq<Region>, current: int, pages: int, bytes: int): int
    requires 0 <= current < |regions|
  {
    if regions[current].pos + bytes <= regions[current].end then 0
    else if bytes > PAGE_SIZE then bytes + REGION_HEADER
    else pages * PAGE_SIZE
  }

  /** The room a new region is given lies inside it. */
  predicate FitsNewRegion(pages: int, bytes: int) {
    bytes > PAGE_SIZE || bytes + REGION_HEADER <= pages * PAGE_SIZE
  }

  /** allocate_region */
  method AllocateRegion(h: Heap, bytes: int, os: Addr) returns (region: Region)
    modifies h`regions
    ensures region == Region(os + REGION_HEADER, os + REGION_HEADER, os + bytes)
    ensures h.regions == old(h.regions) + [region]
    ensures forall objs {:trigger Tiling(old(h.regions), objs)} ::
      Tiling(old(h.regions), objs) ==> Tiling(h.regions, objs)
  {
    region := Region(os + REGION_HEADER, os + REGION_HEADER, os + bytes);
    forall objs {:trigger Tiling(h.regions, objs)} | Tiling(h.regions, objs)
      ensures Tiling(h.regions + [region], objs)
    {
      TilingAppend(h.regions, objs, region);
    }
    h.regions := h.regions + [region];
  }

  /** get_region: bytes beyond a page get a region of their own, which is full at once; otherwise a
      new region is opened for this and later allocations. */
  method GetRegion(h: Heap, bytes: int, os: Addr) returns (result: Addr)
    requires h.current < |h.regions| && 0 <= bytes
    modifies h`regions, h`current, h`pages
    ensures result == os + REGION_HEADER && |h.regions| == |old(h.regions)| + 1
    ensures h.regions[..|old(h.regions)|] == old(h.regions)
    ensures var n := if bytes > PAGE_SIZE then bytes + REGION_HEADER else old(h.pages) * PAGE_SIZE;
      h.regions[|old(h.regions)|] == Region(result, result + bytes, os + n)
    ensures h.current < |h.regions| && old(h.pages) <= h.pages
    ensures bytes > PAGE_SIZE ==> h.current == old(h.current) && h.pages == old(h.pages)
    ensures bytes <= PAGE_SIZE ==> h.current == |old(h.regions)| && h.pages == old(h.pages) + old(h.pages) / 2
  {
    var last := |h.regions|;
    if bytes > PAGE_SIZE {
      var region := AllocateRegion(h, bytes + REGION_HEADER, os);
      result := region.pos;
      h.regions := h.regions[last := region.(pos := region.end)];
    } else {
      var region := AllocateRegion(h, h.pages * PAGE_SIZE, os);
      h.pages := h.pages + h.pages / 2;
      result := region.pos;
      h.regions := h.regions[last := region.(pos := result + bytes)];
      h.current := last;
    }
  }

  /** get_region keeps pos within the region exactly for the sizes FitsNewRegion describes: between
      a page less the region header and a page, a region of a single page is overrun. */
  lemma NewRegionHolds(pages: int, bytes: int, os: Addr)
    requires 1 <= pages && 0 <= bytes
    ensures var n := if bytes > PAGE_SIZE then bytes + REGION_HEADER else pages * PAGE_SIZE;
      os + REGION_HEADER + bytes <= os + n <==> FitsNewRegion(pages, bytes)
    ensures bytes <= MAX_REGION_ALLOC || 2 <= pages ==> FitsNewRegion(pages, bytes)
    ensures !FitsNewRegion(1, PAGE_SIZE)
  {
  }

  /** Which region allocation goes on in, and how big the next new one is. */
  predicate Grows(s: Snapshot, c: Snapshot, bytes: int)
    requires s.current < |s.regions|
  {
    if RegionBytes(s.regions, s.current, s.pages, bytes) == 0 || bytes > PAGE_SIZE then c.current == s.current
      && c.pages == s.pages
    else c.current == |s.regions| && c.pages == s.pages + s.pages / 2
  }

  /** allocate_simple */
  method AllocateSimple(h: Heap, bytes: int, os: Addr) returns (result: Addr, ghost r: int)
    requires h.current < |h.regions| && 0 <= bytes && 1 <= h.pages
    requires RegionBytes(h.regions, h.current, h.pages, bytes) == 0 || FitsNewRegion(h.pages, bytes)
    modifies h`regions, h`current, h`pages
    ensures RoomMade(old(h.regions), h.regions, r, result, bytes)
    ensures old(RegionBytes(h.regions, h.current, h.pages, bytes)) == 0 ==> r < |old(h.regions)|
    ensures if old(h.regions[h.current].pos) + bytes <= old(h.regions[h.current].end)
            then result == old(h.regions[h.current].pos) && h.regions == old(h.regions[h.current :=
                             h.regions[h.current].(pos := h.regions[h.current].pos + bytes)])
            else result == os + REGION_HEADER && |h.regions| == |old(h.regions)| + 1
    ensures r == |old(h.regions)| ==>
      result == os + REGION_HEADER && h.regions[r].end == os + old(RegionBytes(h.regions, h.current, h.pages, bytes))
    ensures h.current < |h.regions| && 1 <= h.pages
    ensures r == if old(RegionBytes(h.regions, h.current, h.pages, bytes)) == 0 then old(h.current)
      else |old(h.regions)|
    ensures Grows(old(h.Now()), h.Now(), bytes)
  {
    result := h.regions[h.current].pos;
    var next := result + bytes;
    if next > h.regions[h.current].end {
      r := |h.regions|;
      NewRegionHolds(h.pages, bytes, os);
      result := GetRegion(h, bytes, os);
    } else {
      r := h.current;
      h.regions := h.regions[h.current := h.regions[h.current].(pos := next)];
    }
  }

  // ----- the new object's place ------------------------------------------------------------

  lemma {:induction false} SplitAt(regions: seq<Region>, objs: seq<Obj>, r: int, n: int) returns (i: int)
    requires Tiling(regions, objs) && 0 <= n <= |objs|
    ensures 0 <= i <= n && forall k :: 0 <= k < n ==> (objs[k].region <= r <==> k < i)
    decreases n
  {
    if n == 0 {
      i := 0;
    } else {
      i := SplitAt(regions, objs, r, n - 1);
      if objs[n - 1].region <= r {
        forall k | 0 <= k < n - 1 ensures objs[k].region <= r {
          TilingIsOrdered(regions, objs, k, n - 1);
        }
        i := n;
      }
    }
  }

  lemma RoomIsTiled(bound: int, was: seq<Region>, objs: seq<Obj>, now: seq<Region>, r: int, at: Addr, size: int)
    returns (i: int)
    requires Geometry(bound, was) && Tiling(was, objs) && RoomMade(was, now, r, at, size) && FREE_BLOCK <= size
    ensures 0 <= i <= |objs| && Tiling(now, Inserted(objs, i, Obj(r, at, size)))
  {
    if r < |was| {
      i := SplitAt(was, objs, r, |objs|);
      TilingGrows(was, objs, r, size, i);
    } else {
      var empty := now[r].(pos := at);
      TilingAppend(was, objs, empty);
      var all := was + [empty];
      forall k | 0 <= k < |objs| ensures objs[k].region <= r {
        assert InRegion(was, objs[k]);
      }
      i := |objs|;
      TilingGrows(all, objs, r, size, i);
      assert Grown(all, r, size) == now;
    }
  }

  /** The words of a new object: empty list, no mark, no references. */
  function BlankWord(kind: Kind, n: int, f: int): Word {
    if f == DATA then Ptr(NULL)
    else if f == BITS then Bits(kind, false)
    else if f == EXTRA && !kind.Record? then Num(n)
    else match SortOf(kind, f)
      case Raw => Num(0)
      case ValueRef => Num(0)
      case PointerRef => Ptr(NULL)
      case CharData => Ptr(NULL)
  }

  function Blanked(m: Memory, at: Addr, kind: Kind, n: int, size: int): (r: Memory)
    ensures |r| == |m|
    ensures forall a :: At(r, a) == if at <= a < at + size && 0 <= a < |m| then BlankWord(kind, n, a - at) else At(m, a)
  {
    seq(|m|, a requires 0 <= a < |m| => if at <= a < at + size then BlankWord(kind, n, a - at) else m[a])
  }

  /** The word kept behind the header: entries of a tuple, size of a block. */
  function ExtraOf(kind: Kind, n: nat): int {
    if kind.Block? then BLOCK_HEADER + n else n
  }

  function SizeOf(kind: Kind, n: nat): int {
    match kind
    case Record(fields) => 2 + |fields|
    case ValueTuple => TUPLE_HEADER + n
    case PointerTuple => TUPLE_HEADER + n
    case Block => BLOCK_HEADER + n
    case FreeRun => FREE_BLOCK
  }

  predicate Allocatable(kind: Kind) {
    kind != FreeRun && (kind.Record? ==> 1 <= |kind.fields|)
  }

  lemma BlankIsNew(m: Memory, at: Addr, region: int, kind: Kind, n: nat)
    requires Allocatable(kind) && 0 < at && at + SizeOf(kind, n) <= |m|
    ensures NewObject(Blanked(m, at, kind, ExtraOf(kind, n), SizeOf(kind, n)), Obj(region, at, SizeOf(kind, n)))
  {
    var size := SizeOf(kind, n);
    var m' := Blanked(m, at, kind, ExtraOf(kind, n), size);
    assert At(m', at + BITS) == Bits(kind, false);
    assert At(m', at + EXTRA) == BlankWord(kind, ExtraOf(kind, n), EXTRA);
    assert SizeAt(m', at) == size;
    forall f | 2 <= f < size ensures !IsSlot(m', at, f) {
      assert At(m', at + f) == BlankWord(kind, ExtraOf(kind, n), f);
    }
  }

  /** The heap with a blank object in the room made at the end of a region. */
  ghost function WithObject(v: View, regions: seq<Region>, i: int, o: Obj, kind: Kind, n: nat): View
    requires 0 <= i <= |v.objs|
  {
    v.(mem := Blanked(v.mem, o.at, kind, ExtraOf(kind, n), o.size), regions := regions, objs := Inserted(v.objs, i, o))
  }

  ghost predicate RoomFor(v: View, regions: seq<Region>, r: int, o: Obj) {
    && v.Valid() && RoomMade(v.regions, regions, r, o.at, o.size) && o.region == r && FREE_BLOCK <= o.size
    && (r == |v.regions| ==>
      && o.at == regions[r].data
      && Unused(v.mem, v.regions, v.pinned, v.symbols, v.roots, o.at - REGION_HEADER,
                regions[r].end - (o.at - REGION_HEADER)))
  }

  lemma RoomBounds(v: View, regions: seq<Region>, r: int, o: Obj)
    requires RoomFor(v, regions, r, o)
    ensures 0 < o.at && o.at + o.size <= |v.mem| && Geometry(|v.mem|, regions)
  {
    if r < |v.regions| {
      forall p, q | 0 <= p < q < |regions| ensures RegionsApart(regions[p], regions[q]) {
        assert RegionsApart(v.regions[p], v.regions[q]);
      }
    } else {
      forall p, q | 0 <= p < q < |regions| ensures RegionsApart(regions[p], regions[q]) {
        assert regions[p] == v.regions[p];
        if q < r {
          assert regions[q] == v.regions[q];
        }
      }
      forall q | 0 <= q < |regions| ensures 0 < regions[q].data <= regions[q].pos <= regions[q].end <= |v.mem| {
        if q < r {
          assert regions[q] == v.regions[q];
        }
      }
    }
  }

  lemma RoomIsApart(v: View, regions: seq<Region>, r: int, o: Obj, k: int)
    requires RoomFor(v, regions, r, o) && 0 <= k < v.Count()
    ensures ApartFrom(v, o, k)
  {
    if r < |v.regions| {
      if k < |v.objs| {
        assert InRegion(v.regions, v.objs[k]);
        if v.objs[k].region != r {
          assert if v.objs[k].region < r then RegionsApart(v.regions[v.objs[k].region], v.regions[r])
            else RegionsApart(v.regions[r], v.regions[v.objs[k].region]);
        }
      } else {
        assert v.OutsideRegions(k, r);
      }
    } else if k < |v.objs| {
      assert InRegion(v.regions, v.objs[k]);
    } else {
      assert v.ObjOk(k);
    }
  }

  lemma RoomMissesRoots(v: View, regions: seq<Region>, r: int, o: Obj, i: int)
    requires RoomFor(v, regions, r, o) && 0 <= i < |v.roots|
    ensures RootApartFrom(v, o, i)
    ensures 0 <= r < |regions| && !(regions[r].data <= v.roots[i].at < regions[r].end)
  {
    if r < |v.regions| {
      assert v.RootOutsideRegion(i, r);
    }
  }

  lemma OtherRegions(v: View, regions: seq<Region>, r: int, o: Obj, q: int)
    requires RoomFor(v, regions, r, o) && 0 <= q < |regions| && q < |v.regions|
    ensures regions[q].data == v.regions[q].data && regions[q].end == v.regions[q].end
  {
    if r == |v.regions| {
      assert regions[q] == v.regions[q];
    }
  }

  lemma RoomOutsidePinned(v: View, regions: seq<Region>, r: int, o: Obj, k: int, q: int)
    requires RoomFor(v, regions, r, o) && |v.objs| <= k < v.Count() && 0 <= q < |regions|
    ensures OutsideRegion(v.ObjAt(k), regions[q])
  {
    if q < |v.regions| {
      OtherRegions(v, regions, r, o, q);
      assert v.OutsideRegions(k, q);
    } else {
      assert v.ObjOk(k);
    }
  }

  lemma ObjectShifts(v: View, regions: seq<Region>, i: int, o: Obj, kind: Kind, n: nat, k: int)
    requires v.Valid() && 0 <= i <= |v.objs| && 0 <= k <= v.Count()
    requires forall a :: !WithinObj(a, o) ==> At(WithObject(v, regions, i, o, kind, n).mem, a) == At(v.mem, a)
    requires k != i ==> ApartFrom(v, o, if k < i then k else k - 1)
    ensures WithObject(v, regions, i, o, kind, n).Count() == v.Count() + 1
    ensures Shifted(v, WithObject(v, regions, i, o, kind, n), i, o, k)
  {
    if k != i {
      PinnedSizeKept(v, WithObject(v, regions, i, o, kind, n), o, if k < i then k else k - 1);
    }
  }

  lemma RoomMissesRegion(v: View, regions: seq<Region>, r: int, o: Obj, p: int, q: int)
    requires RoomFor(v, regions, r, o) && 0 <= p < |v.roots| && 0 <= q < |regions|
    ensures !(regions[q].data <= v.roots[p].at < regions[q].end)
  {
    if q < |v.regions| {
      OtherRegions(v, regions, r, o, q);
      assert v.RootOutsideRegion(p, q);
    } else {
      RoomMissesRoots(v, regions, r, o, p);
    }
  }

  lemma ObjectAdded(v: View, regions: seq<Region>, r: int, o: Obj, i: int, kind: Kind, n: nat)
    requires RoomFor(v, regions, r, o) && Allocatable(kind) && o.size == SizeOf(kind, n)
    requires 0 <= i <= |v.objs| && Tiling(regions, Inserted(v.objs, i, o))
    ensures Added(v, WithObject(v, regions, i, o, kind, n), i, o)
  {
    var c := WithObject(v, regions, i, o, kind, n);
    RoomBounds(v, regions, r, o);
    BlankIsNew(v.mem, o.at, r, kind, n);
    forall k | 0 <= k < v.Count() ensures ApartFrom(v, o, k) {
      RoomIsApart(v, regions, r, o, k);
    }
    forall k | 0 <= k <= v.Count() ensures c.Count() == v.Count() + 1 && Shifted(v, c, i, o, k) {
      assert k != i ==> ApartFrom(v, o, if k < i then k else k - 1);
      ObjectShifts(v, regions, i, o, kind, n, k);
    }
    forall q | 0 <= q < |v.roots| ensures RootApartFrom(v, o, q) {
      RoomMissesRoots(v, regions, r, o, q);
    }
    forall k, q | |c.objs| <= k < c.Count() && 0 <= q < |c.regions| ensures c.OutsideRegions(k, q) {
      assert Shifted(v, c, i, o, k);
      RoomOutsidePinned(v, regions, r, o, k - 1, q);
    }
    forall p, q | 0 <= p < |c.roots| && 0 <= q < |c.regions| ensures c.RootOutsideRegion(p, q) {
      RoomMissesRegion(v, regions, r, o, p, q);
    }
  }

  /** Sizes read from objects away from o are the same. */
  lemma PinnedSizeKept(v: View, c: View, o: Obj, k: int)
    requires v.Valid() && 0 <= k < v.Count() && ApartFrom(v, o, k)
    requires forall a :: !WithinObj(a, o) ==> At(c.mem, a) == At(v.mem, a)
    ensures SizeAt(c.mem, v.ObjAt(k).at) == v.ObjAt(k).size
  {
    assert v.ObjOk(k);
    assert At(c.mem, v.ObjAt(k).at + BITS) == At(v.mem, v.ObjAt(k).at + BITS);
    assert At(c.mem, v.ObjAt(k).at + EXTRA) == At(v.mem, v.ObjAt(k).at + EXTRA);
  }

  /** The heap with a blank object outside of the regions, in heap_list or in symbol_pool_list. */
  ghost function WithPinned(v: View, o: Obj, kind: Kind, n: nat, symbol: bool): View {
    var mem := Blanked(v.mem, o.at, kind, ExtraOf(kind, n), o.size);
    if symbol then v.(mem := mem, symbols := v.symbols + [o.at]) else v.(mem := mem, pinned := v.pinned + [o.at])
  }

  lemma PinnedIsApart(v: View, o: Obj, k: int)
    requires v.Valid() && Unused(v.mem, v.regions, v.pinned, v.symbols, v.roots, o.at, o.size) && 0 <= k < v.Count()
    ensures ApartFrom(v, o, k)
  {
    assert v.ObjOk(k);
    if k < |v.objs| {
      assert InRegion(v.regions, v.objs[k]);
    }
  }

  lemma PinnedShifts(v: View, o: Obj, kind: Kind, n: nat, symbol: bool, k: int)
    requires v.Valid() && 0 <= k <= v.Count() && o.size == SizeOf(kind, n) && o.region == -1
    requires NewObject(WithPinned(v, o, kind, n, symbol).mem, o)
    requires var i := PinnedIndex(v, symbol); k != i ==> ApartFrom(v, o, if k < i then k else k - 1)
    ensures var c := WithPinned(v, o, kind, n, symbol);
            c.Count() == v.Count() + 1 && Shifted(v, c, PinnedIndex(v, symbol), o, k)
  {
    var i := PinnedIndex(v, symbol);
    if k != i {
      PinnedSizeKept(v, WithPinned(v, o, kind, n, symbol), o, if k < i then k else k - 1);
    }
  }

  ghost function PinnedIndex(v: View, symbol: bool): nat {
    |v.objs| + |v.pinned| + if symbol then |v.symbols| else 0
  }

  lemma PinnedAdded(v: View, o: Obj, kind: Kind, n: nat, symbol: bool)
    requires v.Valid() && Allocatable(kind) && o.size == SizeOf(kind, n) && o.region == -1
    requires Unused(v.mem, v.regions, v.pinned, v.symbols, v.roots, o.at, o.size)
    ensures Added(v, WithPinned(v, o, kind, n, symbol), PinnedIndex(v, symbol), o)
  {
    var c := WithPinned(v, o, kind, n, symbol);
    var i := PinnedIndex(v, symbol);
    BlankIsNew(v.mem, o.at, -1, kind, n);
    forall k | 0 <= k < v.Count() ensures ApartFrom(v, o, k) {
      PinnedIsApart(v, o, k);
    }
    forall k | 0 <= k <= v.Count() ensures c.Count() == v.Count() + 1 && Shifted(v, c, i, o, k) {
      assert k != i ==> ApartFrom(v, o, if k < i then k else k - 1);
      PinnedShifts(v, o, kind, n, symbol, k);
    }
    forall q | 0 <= q < |v.roots| ensures RootApartFrom(v, o, q) {
    }
    forall k, q | |c.objs| <= k < c.Count() && 0 <= q < |c.regions| ensures c.OutsideRegions(k, q) {
      assert Shifted(v, c, i, o, k);
      if k != i {
        assert v.OutsideRegions(if k < i then k else k - 1, q);
      }
    }
    forall p, q | 0 <= p < |c.roots| && 0 <= q < |c.regions| ensures c.RootOutsideRegion(p, q) {
      assert v.RootOutsideRegion(p, q);
    }
  }

  // ----- allocation ------------------------------------------------------------------------

  /** Tuples and blocks beyond max_region_alloc are allocated outside the regions. */
  predicate Large(kind: Kind, n: nat) {
    !kind.Record? && SizeOf(kind, n) > MAX_REGION_ALLOC
  }

  /** Whose allocation it is: allocate and its kin, allocate_pinned, or the symbol pool. */
  datatype Home = Regions | Pinned | SymbolPool

  predicate Outside(home: Home, kind: Kind, n: nat) {
    home != Regions || Large(kind, n)
  }

  /** What an allocation asks of the platform. */
  predicate CanAllocate(s: Snapshot, home: Home, kind: Kind, n: nat, os: Addr)
    requires s.current < |s.regions|
  {
    var size := SizeOf(kind, n);
    && Allocatable(kind) && (home != Regions ==> kind.Record?)
    && if Outside(home, kind, n) then Unused(s.mem, s.regions, s.pinned, s.symbols, s.roots, os, size)
       else
         var bytes := RegionBytes(s.regions, s.current, s.pages, size);
         bytes == 0 || (FitsNewRegion(s.pages, size)
                        && Unused(s.mem, s.regions, s.pinned, s.symbols, s.roots, os, bytes))
  }

  /** Where the object goes: at the end of the current region if it fits there. */
  predicate Placed(s: Snapshot, c: Snapshot, home: Home, kind: Kind, n: nat, os: Addr, obj: Addr)
    requires s.current < |s.regions|
  {
    var size := SizeOf(kind, n);
    if Outside(home, kind, n) then
      && obj == os && c.regions == s.regions && c.current == s.current && c.pages == s.pages
      && c.pinned == (if home == SymbolPool then s.pinned else s.pinned + [obj])
      && c.symbols == (if home == SymbolPool then s.symbols + [obj] else s.symbols)
    else
      && c.pinned == s.pinned && c.symbols == s.symbols && Grows(s, c, size)
      && obj == if RegionBytes(s.regions, s.current, s.pages, size) == 0 then s.regions[s.current].pos
         else os + REGION_HEADER
  }

  /** An object that is pinned, or a tuple or block of more than 512 bytes, is where the platform says.
      Any other is at the end of the current region, or at the start of a new one, which becomes the
      current one, and the next one bigger, unless the object has it for itself. */
  lemma PlacedInWords(s: Snapshot, c: Snapshot, home: Home, kind: Kind, n: nat, os: Addr, obj: Addr)
    requires s.current < |s.regions| && 1 <= s.pages && Allocatable(kind) && Placed(s, c, home, kind, n, os, obj)
    ensures home != Regions || (!kind.Record? && 3 + n > 512 / 8) ==>
              obj == os && c.regions == s.regions && c.current == s.current && c.pages == s.pages
    ensures home == Regions && (kind.Record? || 3 + n <= 512 / 8) ==>
              var size := if kind.Record? then 2 + |kind.fields| else 3 + n;
              var current := s.regions[s.current];
              if current.pos + size <= current.end
              then obj == current.pos && c.current == s.current && c.pages == s.pages
              else && obj == os + 4
                   && (if size > 4096 / 8 then c.current == s.current && c.pages == s.pages
                       else c.current == |s.regions| && c.pages == s.pages + s.pages / 2)
    ensures c.pinned == s.pinned + if home == Pinned || (home == Regions && !kind.Record? && 3 + n > 512 / 8) then [obj]
                                   else []
    ensures c.symbols == s.symbols + if home == SymbolPool then [obj] else []
  {
  }

  lemma GrownIsSized(was: seq<Region>, now: seq<Region>, r: int, at: Addr, size: int)
    requires RoomMade(was, now, r, at, size)
    requires forall q :: 0 <= q < |was| ==> Sized(was, q)
    requires r == |was| ==> Sized(now, r)
    ensures forall q :: 0 <= q < |now| ==> Sized(now, q)
  {
    forall q | 0 <= q < |now| ensures Sized(now, q) {
      if q < |was| {
        assert Sized(was, q);
        if r == |was| {
          assert now[q] == was[q];
        }
      }
    }
  }

  lemma NewRegionIsSized(regions: seq<Region>, current: int, pages: int, bytes: int)
    requires 0 <= current < |regions| && 1 <= pages
    ensures RegionBytes(regions, current, pages, bytes) == 0 || RegionBytes(regions, current, pages, bytes) >= PAGE_SIZE
  {
  }

  /** Allocation of an object and its constructor. */
  method New(h: Heap, home: Home, kind: Kind, n: nat, os: Addr) returns (obj: Addr)
    requires Sound(h) && CanAllocate(h.Now(), home, kind, n, os)
    modifies h`mem, h`regions, h`current, h`pages, h`pinned, h`symbols, h`objs
    ensures Sound(h) && h.roots == old(h.roots) && Placed(old(h.Now()), h.Now(), home, kind, n, os, obj)
    ensures exists i, r :: Added(old(h.View()), h.View(), i, Obj(r, obj, SizeOf(kind, n)))
    ensures KindAt(h.mem, obj) == kind
    ensures h.pinned == old(h.pinned)
      + if home == Pinned || (home == Regions && !kind.Record? && 3 + n > 512 / 8) then [obj] else []
    ensures h.symbols == old(h.symbols) + if home == SymbolPool then [obj] else []
  {
    hide Added, View.Valid, Geometry, Tiling;
    ghost var v := h.View();
    var size := SizeOf(kind, n);
    if Outside(home, kind, n) {
      obj := os;
      if home == SymbolPool {
        h.symbols := h.symbols + [obj];
      } else {
        h.pinned := h.pinned + [obj];
      }
      ghost var o := Obj(-1, obj, size);
      h.mem := Blanked(h.mem, obj, kind, ExtraOf(kind, n), size);
      PinnedAdded(v, o, kind, n, home == SymbolPool);
      AddingKeepsValid(v, h.View(), PinnedIndex(v, home == SymbolPool), o);
    } else {
      obj := NewInRegion(h, kind, n, os);
    }
  }

  method NewInRegion(h: Heap, kind: Kind, n: nat, os: Addr) returns (obj: Addr)
    requires Sound(h) && CanAllocate(h.Now(), Regions, kind, n, os) && !Large(kind, n)
    modifies h`mem, h`regions, h`current, h`pages, h`objs
    ensures Sound(h) && Placed(old(h.Now()), h.Now(), Regions, kind, n, os, obj)
    ensures exists i, r :: Added(old(h.View()), h.View(), i, Obj(r, obj, SizeOf(kind, n)))
    ensures KindAt(h.mem, obj) == kind
  {
    hide Added, View.Valid, RoomMade, Unused, Blanked, Inserted;
    ghost var v := h.View();
    var size := SizeOf(kind, n);
    ghost var r;
    NewRegionIsSized(h.regions, h.current, h.pages, size);
    obj, r := AllocateSimple(h, size, os);
    ghost var o := Obj(r, obj, size);
    ghost var i := RoomGiven(v, h.regions, r, o, kind, n);
    h.mem := Blanked(h.mem, obj, kind, ExtraOf(kind, n), size);
    h.objs := Inserted(h.objs, i, o);
  }

  /** All that is to know about the room and the object in it. */
  lemma RoomGiven(v: View, regions: seq<Region>, r: int, o: Obj, kind: Kind, n: nat) returns (i: int)
    requires v.Valid() && Allocatable(kind) && o.size == SizeOf(kind, n) && RoomFor(v, regions, r, o)
    requires forall q :: 0 <= q < |v.regions| ==> Sized(v.regions, q)
    requires r == |v.regions| ==> Sized(regions, r)
    ensures 0 <= i <= |v.objs| && forall q :: 0 <= q < |regions| ==> Sized(regions, q)
    ensures Added(v, WithObject(v, regions, i, o, kind, n), i, o) && WithObject(v, regions, i, o, kind, n).Valid()
    ensures KindAt(WithObject(v, regions, i, o, kind, n).mem, o.at) == kind
  {
    hide Tiling, Added, Geometry;
    GrownIsSized(v.regions, regions, r, o.at, o.size);
    i := RoomIsTiled(|v.mem|, v.regions, v.objs, regions, r, o.at, o.size);
    ObjectAdded(v, regions, r, o, i, kind, n);
    AddingKeepsValid(v, WithObject(v, regions, i, o, kind, n), i, o);
    RoomBounds(v, regions, r, o);
    assert At(Blanked(v.mem, o.at, kind, ExtraOf(kind, n), o.size), o.at + BITS) == Bits(kind, false);
  }

  // ----- the first region ------------------------------------------------------------------

  /** Root slots that refer to nothing yet. */
  ghost predicate RootsBlank(m: Memory, roots: seq<Root>) {
    && (forall i {:trigger roots[i]} ::
        0 <= i < |roots| ==> 0 < roots[i].at < |m| && !IsRef(roots[i].sort, m[roots[i].at]))
    && (forall i, j :: 0 <= i < j < |roots| ==> roots[i].at != roots[j].at)
  }

  lemma EmptyHeapIsValid(m: Memory, region: Region, roots: seq<Root>)
    requires 0 < region.data == region.pos <= region.end <= |m| && RootsBlank(m, roots)
    requires Unused(m, [], [], [], roots, region.data - REGION_HEADER, region.end - (region.data - REGION_HEADER))
    ensures View.View(m, [region], [], [], [], roots).Valid()
  {
  }

  /** Collector::initialize */
  method Initialize(h: Heap, os: Addr)
    requires h.regions == [] && h.pinned == [] && h.symbols == [] && h.objs == [] && h.pages == 32
    requires RootsBlank(h.mem, h.roots) && Unused(h.mem, [], [], [], h.roots, os, h.pages * PAGE_SIZE)
    modifies h`regions, h`current
    ensures Sound(h) && h.objs == [] && h.pages == 32 && h.current == 0
    ensures h.regions == [Region(os + REGION_HEADER, os + REGION_HEADER, os + h.pages * PAGE_SIZE)]
    ensures h.regions == [Region(os + 4, os + 4, os + 32 * 4096 / 8)]
  {
    hide RootsBlank, Tiling, View.Layout, View.Idle;
    var region := AllocateRegion(h, h.pages * PAGE_SIZE, os);
    h.current := |h.regions| - 1;
    assert h.regions == [region];
    EmptyHeapIsValid(h.mem, region, h.roots);
  }
}
