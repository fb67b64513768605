/** Collector::update_backward. */
module GcBackward {
  import opened GcMemory
  import opened GcHeap
  import opened GcState
  import opened GcPlan
  import opened GcThreads
  import opened GcGraph
  import opened GcSlide
  import opened GcPasses
  import opened GcForward
  import opened GcWalk
  import opened GcMove
  import opened GcCompact

  const PAGE_SIZE := 0x1000 / WORD_SIZE

  /** The size of a region in pages. */
  function PagesOf(region: Region): int {
    (region.end - (region.data - REGION_HEADER)) / PAGE_SIZE
  }

  /** The backward pass over the regions has come to object w. */
  ghost predicate BackwardAt(g: Graph, v: View, m: Memory, w: int, chains: seq<seq<Addr>>) {
    && 0 <= w <= |v.objs| && |m| == |v.mem|
    && Backward(g, v, m, Rank(v, w), chains)
    && AllDeadOk(v, m, w, |v.objs|)
  }

  /** The first n live objects of the regions, where they end up. */
  ghost function MovedObjs(v: View, n: int): (r: seq<Obj>)
    requires 0 <= n <= |LiveObjs(v)|
    ensures |r| == n
    ensures forall k :: 0 <= k < n ==> r[k] == Obj(PlaceOf(v, k).region, PlaceOf(v, k).pos, LiveObjs(v)[k].size)
  {
    seq(n, k requires 0 <= k < n => Obj(PlaceOf(v, k).region, PlaceOf(v, k).pos, LiveObjs(v)[k].size))
  }

  /** The regions below the free place are filled with the objects moved so far; from there on
      they are as they were. */
  ghost predicate RegionsAt(v: View, regions: seq<Region>, region: int, pos: Addr, w: int) {
    && 0 <= w <= |v.objs| && Rank(v, w) <= |LiveObjs(v)|
    && SameBounds(regions, v.regions) && AgreeFrom(regions, v.regions, region)
    && Place(region, pos) == FreePlace(v, w)
    && Filled(regions, region, pos, MovedObjs(v, Rank(v, w)))
    && (w < |v.objs| ==> region <= v.objs[w].region)
  }

  lemma RegionsAtStart(v: View)
    requires Marked(v)
    ensures 0 < |v.regions| && RegionsAt(v, v.regions, 0, v.regions[0].data, 0)
    ensures Tiling(v.regions, v.objs)
  {
    var closed := ClosedAt(v.regions, 0, v.regions[0].data);
    assert MovedObjs(v, 0) == [];
    assert Leads(closed, [], 0, closed[0].data, 0);
    if |v.objs| > 0 {
      assert InRegion(v.regions, v.objs[0]);
    }
  }

  lemma {:induction false} RankAcrossDead(v: View, w: int, e: int)
    requires 0 <= w <= e <= v.Count() && forall i :: w <= i < e ==> !Live(v, i)
    ensures Rank(v, e) == Rank(v, w)
    decreases e
  {
    if w < e {
      RankAcrossDead(v, w, e - 1);
    }
  }

  /** What the backward pass reads at object w. */
  lemma ReadBackward(g: Graph, v: View, m: Memory, w: int, chains: seq<seq<Addr>>) returns (e: int)
    requires Marked(v) && Describes(g, v) && BackwardAt(g, v, m, w, chains) && w < |v.objs|
    ensures var o := v.objs[w].at;
      && 0 <= o && 0 <= o + DATA < |m| && 0 <= o + BITS < |m| && 0 <= o + EXTRA < |m|
      && m[o + BITS].Bits? && m[o + BITS].marked == Live(v, w)
      && (Live(v, w) || m[o + BITS].kind != FreeRun ==> SizeAt(m, o) == v.objs[w].size)
    ensures !Live(v, w) ==> w < e <= |v.objs| && (forall i :: w <= i < e ==> !Live(v, i))
    ensures var o := v.objs[w].at; !Live(v, w) && m[o + BITS].kind == FreeRun ==>
      && m[o + DATA].Ptr? && m[o + EXTRA].Num?
      && if e < |v.objs| then m[o + DATA].to == v.objs[e].at && m[o + EXTRA].n == v.objs[e].region
         else m[o + EXTRA].n == -1
    ensures var o := v.objs[w].at; !Live(v, w) && m[o + BITS].kind != FreeRun ==> e == w + 1
    // exactly the runs of two or more are jumped, and to their end
    ensures !Live(v, w) && StartsRun(v, w) ==> e == RunEnd(v, w, |v.objs|)
  {
    assert DeadOk(v, m, w, |v.objs|) && v.ObjOk(w);
    e := w + 1;
    if Live(v, w) {
      ReadObject(g, v, m, Rank(v, w), w, |v.objs|);
    } else if StartsRun(v, w) && w + 2 <= RunEnd(v, w, |v.objs|) {
      e := RunEnd(v, w, |v.objs|);
    } else {
      ReadObject(g, v, m, Rank(v, w), w, |v.objs|);
      if StartsRun(v, w) {
        assert RunEnd(v, w, |v.objs|) >= w + 1 by {
          assert RunEnd(v, w, |v.objs|) == RunEnd(v, w + 1, |v.objs|);
        }
      }
    }
  }

  /** Dead objects are passed over without effect. */
  lemma PassDead(g: Graph, v: View, m: Memory, regions: seq<Region>, region: int, pos: Addr, w: int, e: int,
                 chains: seq<seq<Addr>>)
    requires Marked(v) && BackwardAt(g, v, m, w, chains) && RegionsAt(v, regions, region, pos, w)
    requires w < e <= |v.objs| && forall i :: w <= i < e ==> !Live(v, i)
    ensures BackwardAt(g, v, m, e, chains) && RegionsAt(v, regions, region, pos, e)
    ensures e < |v.objs| ==> 0 <= v.objs[e].region
  {
    RankAcrossDead(v, w, e);
    forall h | 0 <= h < |v.objs| && e <= h ensures DeadOk(v, m, h, |v.objs|) {
    }
    if e < |v.objs| {
      TilingIsOrdered(v.regions, v.objs, w, e);
      assert InRegion(v.regions, v.objs[e]);
    }
  }

  /** memmove: from the front or from the back, so that no word is overwritten before it is read. */
  method MemMove(h: Heap, to: Addr, from: Addr, size: int)
    requires 0 <= from && 0 <= to && 0 <= size && from + size <= |h.mem| && to + size <= |h.mem|
    modifies h`mem
    ensures h.mem == Moved(old(h.mem), from, to, size)
  {
    ghost var was := h.mem;
    var i := 0;
    if to <= from {
      while i < size
        invariant 0 <= i <= size && |h.mem| == |was|
        invariant forall a {:trigger h.mem[a]} ::
          0 <= a < |was| ==> h.mem[a] == if to <= a < to + i then was[a - to + from] else was[a]
      {
        h.mem := h.mem[to + i := h.mem[from + i]];
        i := i + 1;
      }
    } else {
      i := size;
      while i > 0
        invariant 0 <= i <= size && |h.mem| == |was|
        invariant forall a {:trigger h.mem[a]} ::
          0 <= a < |was| ==> h.mem[a] == if to + i <= a < to + size then was[a - to + from] else was[a]
      {
        i := i - 1;
        h.mem := h.mem[to + i := h.mem[from + i]];
      }
    }
    MovedWords(was, h.mem, from, to, size);
  }

  lemma MovedWords(m: Memory, m': Memory, from: Addr, to: Addr, size: int)
    requires 0 <= from && 0 <= to && 0 <= size && from + size <= |m| && to + size <= |m| && |m'| == |m|
    requires forall a {:trigger m'[a]} ::
      0 <= a < |m| ==> m'[a] == if to <= a < to + size then m[a - to + from] else m[a]
    ensures m' == Moved(m, from, to, size)
  {
    forall a | 0 <= a < |m| ensures m'[a] == Moved(m, from, to, size)[a] {
      assert At(Moved(m, from, to, size), a) == Moved(m, from, to, size)[a];
    }
  }

  /** move */
  method Move(h: Heap, p: Addr, newP: Addr, size: int)
    requires 0 <= p && 0 <= newP && 0 <= size && p + size <= |h.mem| && newP + size <= |h.mem|
    modifies h`mem
    ensures h.mem == Moved(old(h.mem), p, newP, size)
  {
    if p != newP {
      MemMove(h, newP, p, size);
    } else {
      assert Moved(h.mem, p, newP, size) == h.mem by {
        forall a | 0 <= a < |h.mem| ensures Moved(h.mem, p, newP, size)[a] == h.mem[a] {
          assert At(Moved(h.mem, p, newP, size), a) == At(h.mem, a);
        }
      }
    }
  }

  lemma BackwardLiveFits(g: Graph, v: View, m: Memory, regions: seq<Region>, region: int, pos: Addr, w: int,
                         chains: seq<seq<Addr>>)
    returns (moved: seq<Obj>)
    requires Marked(v) && Describes(g, v) && BackwardAt(g, v, m, w, chains) && RegionsAt(v, regions, region, pos, w)
    requires w < |v.objs| && Live(v, w)
    ensures SameBounds(regions, v.regions) && Geometry(|m|, v.regions) && FREE_BLOCK <= v.objs[w].size
    ensures PlaceOk(v.regions, Place(region, pos)) && Rank(v, w) <= |LiveObjs(v)|
    ensures moved == MovedObjs(v, Rank(v, w)) && Filled(regions, region, pos, moved)
    ensures var q := Fit(v.regions, Place(region, pos), v.objs[w].size);
      && q.region < |v.regions| && Rank(v, w) < |g.node| == |g.dest| && q.pos == g.dest[Rank(v, w)]
  {
    PlacingLive(g, v, w);
    assert InRegion(v.regions, v.objs[w]);
    moved := MovedObjs(v, Rank(v, w));
  }

  lemma MovedOne(v: View, w: int)
    requires 0 <= w < |v.objs| && Live(v, w)
    ensures Rank(v, w + 1) == Rank(v, w) + 1 <= |LiveObjs(v)|
    ensures var q := Fit(v.regions, FreePlace(v, w), v.objs[w].size);
            MovedObjs(v, Rank(v, w + 1)) == MovedObjs(v, Rank(v, w)) + [Obj(q.region, q.pos, v.objs[w].size)]
  {
    hide Fit;
    RankOfLive(v, w, |v.objs|);
    assert LiveObjs(v)[Rank(v, w)] == v.objs[w];
    assert PlaceOf(v, Rank(v, w)) == Fit(v.regions, FreePlace(v, w), v.objs[w].size);
  }

  lemma RegionsAscend(v: View, w: int)
    requires v.Layout() && 0 <= w && w + 1 < |v.objs|
    ensures v.objs[w].region <= v.objs[w + 1].region
  {
    TilingIsOrdered(v.regions, v.objs, w, w + 1);
  }

  lemma MovedStep(g: Graph, v: View, w: int) returns (moved: seq<Obj>)
    requires Marked(v) && Describes(g, v) && 0 <= w < |v.objs| && Live(v, w)
    ensures Rank(v, w) <= |LiveObjs(v)| && Rank(v, w + 1) <= |LiveObjs(v)| && moved == MovedObjs(v, Rank(v, w))
    ensures var q := Fit(v.regions, FreePlace(v, w), v.objs[w].size);
      && MovedObjs(v, Rank(v, w + 1)) == moved + [Obj(q.region, q.pos, v.objs[w].size)]
      && FreePlace(v, w + 1) == Place(q.region, q.pos + v.objs[w].size)
      && q.region <= v.objs[w].region
    ensures w + 1 < |v.objs| ==> v.objs[w].region <= v.objs[w + 1].region
  {
    hide Describes, Fit, FreePlace, Rank, MovedObjs, LiveObjs, Live;
    PlacingLive(g, v, w);
    MovedOne(v, w);
    moved := MovedObjs(v, Rank(v, w));
    if w + 1 < |v.objs| {
      RegionsAscend(v, w);
    }
  }

  lemma BackwardLiveMoves(g: Graph, v: View, w: int, was: seq<Region>, region: int, pos: Addr, regions: seq<Region>,
                          region': int, result: Addr)
    requires Marked(v) && Describes(g, v) && 0 <= w < |v.objs| && Live(v, w)
    requires RegionsAt(v, was, region, pos, w)
    requires Place(region', result) == Fit(v.regions, Place(region, pos), v.objs[w].size)
    requires SameBounds(regions, v.regions) && AgreeFrom(regions, was, region') && region <= region'
    requires Filled(regions, region', result + v.objs[w].size,
                    MovedObjs(v, Rank(v, w)) + [Obj(region', result, v.objs[w].size)])
    ensures RegionsAt(v, regions, region', result + v.objs[w].size, w + 1)
    ensures region' <= v.objs[w].region
  {
    hide Marked, Describes, Filled, Fit, Alive, LiveObjs, FreePlace, Rank, Live, MovedObjs;
    var moved := MovedStep(g, v, w);
  }

  /** Pure part of the visit of a live object. */
  lemma BackwardLiveStep(g: Graph, v: View, m: Memory, w: int, chains: seq<seq<Addr>>) returns (k: int)
    requires Marked(v) && Describes(g, v) && BackwardAt(g, v, m, w, chains) && w < |v.objs| && Live(v, w)
    ensures k == Rank(v, w) && 0 <= k < |g.node| && |g.kind| == |g.node| && |g.dest| == |g.node| && |g.size| == |g.node|
      && |chains| == |g.node|
    ensures 0 <= w
      && g.node[k] == v.objs[w].at && g.size[k] == v.objs[w].size && 0 <= g.node[k] + DATA < |m|
      && 0 < g.dest[k] && g.dest[k] + g.size[k] <= |m| && 0 < g.node[k] && 3 <= g.size[k]
      && g.node[k] + g.size[k] <= |m|
      && 0 <= g.node[k] + BITS < |m|
      && m[g.node[k] + BITS] == Bits(g.kind[k], true)
      && BackwardAt(g, v, Moved(Updated(m, g.node[k], g.kind[k], chains[k], g.dest[k]), g.node[k], g.dest[k],
                                g.size[k]), w + 1, chains[k := []])
      && IsChain(m, g.node[k], chains[k]) && g.node[k] !in chains[k] && g.node[k] + BITS !in chains[k]
      && (forall i :: 0 <= i < |chains[k]| ==> chains[k][i] < |m|)
  {
    k := Rank(v, w);
    RankOfLive(v, w, v.Count());
    assert NodeIs(g, v, w);
    BackwardVisit(g, v, m, k, chains);
    BackwardKeepsDead(g, v, m, w, chains);
    ReadHeader(g, v, m, k, k);
    ChainBounds(g, m, k, chains, BackwardThreaded(g, k), BackwardDone(g, k), k);
  }

  method BackwardLive(h: Heap, i: Addr, size: int, free: RegionAllocator, ghost g: Graph, ghost v: View, ghost w: int,
                      ghost chains: seq<seq<Addr>>)
    returns (ghost chains': seq<seq<Addr>>)
    requires Marked(v) && Describes(g, v) && BackwardAt(g, v, h.mem, w, chains)
    requires w < |v.objs| && Live(v, w) && i == v.objs[w].at && size == v.objs[w].size
    requires free.backward && RegionsAt(v, h.regions, free.region, free.pos, w)
    modifies h`mem, h`regions, free
    ensures BackwardAt(g, v, h.mem, w + 1, chains') && RegionsAt(v, h.regions, free.region, free.pos, w + 1)
    ensures free.region <= v.objs[w].region && AgreeFrom(h.regions, v.regions, v.objs[w].region)
  {
    hide *;
    ghost var was, region, pos := h.regions, free.region, free.pos;
    ghost var moved := BackwardLiveFits(g, v, h.mem, h.regions, free.region, free.pos, w, chains);
    ghost var k := BackwardLiveStep(g, v, h.mem, w, chains);
    var newP := free.Allocate(h, size, v.regions, moved);
    BackwardLiveMoves(g, v, w, was, region, pos, h.regions, free.region, newP);
    Update(h, true, i, newP, chains[k]);
    UpdatedIs(old(h.mem), i, g.kind[k], chains[k], newP);
    Move(h, i, newP, size);
    chains' := chains[k := []];
    AgreeLater(v, h.regions, free.region, free.pos, w + 1, v.objs[w].region);
  }

  lemma UpdatedIs(m: Memory, o: Addr, kind: Kind, c: seq<Addr>, free: Addr)
    requires 0 <= o && 0 <= o + BITS < |m| && o + DATA < |m|
    ensures Updated(m, o, kind, c, free)
      == Resolved(m[o + BITS := Bits(kind, false)], c, Ptr(free + Bias(kind)))[o := Ptr(NULL)]
  {
  }

  lemma AgreeLater(v: View, regions: seq<Region>, region: int, pos: Addr, w: int, r: int)
    requires RegionsAt(v, regions, region, pos, w) && region <= r
    ensures AgreeFrom(regions, v.regions, r)
  {
  }

  lemma ReachedObject(obj: RegionWalker, v: View, regions: seq<Region>, region: int, pos: Addr, w: int)
    requires Marked(v) && 0 <= w < |v.objs| && obj.Reached(v.objs, w) && RegionsAt(v, regions, region, pos, w)
    ensures obj.pos == v.objs[w].at && obj.region == v.objs[w].region && AgreeFrom(regions, v.regions, obj.region)
  {
  }

  /** On the floor of a heap without objects is an unmarked free block that leads to no region. */
  predicate WalkEnds(m: Memory, regions: seq<Region>) {
    var floor := Floor(regions);
    && 0 < |regions| && 0 < floor && floor + FREE_BLOCK <= regions[|regions| - 1].end <= |m|
    && At(m, floor + BITS) == Bits(FreeRun, false) && At(m, floor + DATA).Ptr? && At(m, floor + EXTRA) == Num(-1)
  }

  /** The result of load is not looked at: there is an object to start with, or the words the walk
      starts with instead end it. */
  predicate WalkStarts(m: Memory, regions: seq<Region>, objs: seq<Obj>) {
    |objs| == 0 ==> WalkEnds(m, regions)
  }

  lemma WalkStillStarts(g: Graph, v: View, m: Memory, chains: seq<seq<Addr>>)
    requires BackwardAt(g, v, m, 0, chains) && WalkStarts(v.mem, v.regions, v.objs)
    ensures WalkStarts(m, v.regions, v.objs) && 0 <= |v.objs|
  {
    var floor := Floor(v.regions);
    assert |v.objs| == 0 ==> OnFloor(v, floor + DATA) && OnFloor(v, floor + BITS) && OnFloor(v, floor + EXTRA);
  }

  lemma FloorRead(m: Memory, regions: seq<Region>, objs: seq<Obj>, pos: Addr)
    requires WalkStarts(m, regions, objs) && |objs| == 0 && pos == Floor(regions)
    ensures 0 <= pos && 0 <= pos + DATA < |m| && 0 <= pos + BITS < |m| && 0 <= pos + EXTRA < |m|
    ensures m[pos + BITS] == Bits(FreeRun, false) && m[pos + DATA].Ptr? && m[pos + EXTRA] == Num(-1)
  {
  }

  lemma FloorIs(regions: seq<Region>)
    ensures |regions| > 0 ==> Floor(regions) == regions[|regions| - 1].data
  {
  }

  /** The backward pass over the regions. */
  method WalkBackward(h: Heap, free: RegionAllocator, ghost g: Graph, ghost v: View, ghost chains: seq<seq<Addr>>)
    returns (ghost chains': seq<seq<Addr>>)
    requires Marked(v) && Describes(g, v) && h.regions == v.regions && BackwardAt(g, v, h.mem, 0, chains)
    requires WalkStarts(v.mem, v.regions, v.objs)
    requires free.backward && 0 < |v.regions| && free.region == 0 && free.pos == v.regions[0].data
    modifies h`mem, h`regions, free
    ensures BackwardAt(g, v, h.mem, |v.objs|, chains') && RegionsAt(v, h.regions, free.region, free.pos, |v.objs|)
  {
    hide *;
    RegionsAtStart(v);
    WalkStillStarts(g, v, h.mem, chains);
    FloorIs(v.regions);
    chains' := chains;
    var obj := new RegionWalker();
    ghost var w := 0;
    var _ := obj.Load(h.regions, v.objs);
    var more := true;
    while more
      invariant 0 <= w <= |v.objs| && (more ==> w < |v.objs| || |v.objs| == 0) && (!more ==> w == |v.objs|)
      invariant more ==> if |v.objs| == 0 then obj.pos == Floor(v.regions) && WalkStarts(h.mem, v.regions, v.objs)
                         else obj.Reached(v.objs, w)
      invariant BackwardAt(g, v, h.mem, w, chains') && RegionsAt(v, h.regions, free.region, free.pos, w)
      invariant free.backward
      decreases |v.objs| - w, more
    {
      ghost var e := w;
      if |v.objs| == 0 {
        FloorRead(h.mem, v.regions, v.objs, obj.pos);
      } else {
        e := ReadBackward(g, v, h.mem, w, chains');
        ReachedObject(obj, v, h.regions, free.region, free.pos, w);
      }
      var i := obj.pos;
      var size := SizeAt(h.mem, i);
      if h.mem[i + BITS].marked {
        chains' := BackwardLive(h, i, size, free, g, v, w, chains');
        more := obj.Step(size, h.regions, v.regions, v.objs, w);
        w := w + 1;
      } else {
        if |v.objs| > 0 {
          PassDead(g, v, h.mem, h.regions, free.region, free.pos, w, e, chains');
        }
        if h.mem[i + BITS].kind == FreeRun {
          more := obj.Jump(h.mem[i + DATA].to, h.mem[i + EXTRA].n, v.objs, e);
        } else {
          more := obj.Step(size, h.regions, v.regions, v.objs, w);
        }
        w := e;
      }
    }
  }

  // ----- pinned objects and symbols --------------------------------------------------------

  /** The backward pass has come to object n, a pinned one or a symbol. */
  ghost predicate BackwardDown(g: Graph, v: View, m: Memory, n: int, chains: seq<seq<Addr>>) {
    && |v.objs| <= n <= v.Count() && |m| == |v.mem|
    && Backward(g, v, m, Rank(v, n), chains)
  }

  lemma RegionsDone(g: Graph, v: View, m: Memory, chains: seq<seq<Addr>>)
    requires BackwardAt(g, v, m, |v.objs|, chains)
    ensures BackwardDown(g, v, m, |v.objs|, chains)
  {
  }

  lemma ReadDownBackward(g: Graph, v: View, m: Memory, n: int, chains: seq<seq<Addr>>)
    requires Marked(v) && Describes(g, v) && n < v.Count() && BackwardDown(g, v, m, n, chains)
    ensures var o := v.ObjAt(n).at;
      0 < o && 0 <= o + BITS < |m| && m[o + BITS].Bits? && m[o + BITS].marked == Live(v, n)
    ensures !Live(v, n) ==> BackwardDown(g, v, m, n + 1, chains)
  {
    ReadPinned(g, v, m, Rank(v, n), n);
  }

  lemma BackwardPinnedStep(g: Graph, v: View, m: Memory, n: int, chains: seq<seq<Addr>>) returns (k: int)
    requires Marked(v) && Describes(g, v) && n < v.Count() && BackwardDown(g, v, m, n, chains) && Live(v, n)
    ensures 0 <= k < |g.node| && |g.kind| == |g.node| && |chains| == |g.node|
    ensures var o := v.ObjAt(n).at;
      && o == g.node[k] && 0 <= o && 0 <= o + DATA < |m| && 0 <= o + BITS < |m| && m[o + BITS] == Bits(g.kind[k], true)
      && BackwardDown(g, v, Updated(m, o, g.kind[k], chains[k], o), n + 1, chains[k := []])
      && IsChain(m, o, chains[k]) && o !in chains[k] && o + BITS !in chains[k]
      && (forall i :: 0 <= i < |chains[k]| ==> chains[k][i] < |m|)
  {
    assert v.Layout() && 0 < |v.regions|;
    hide View.Layout, Threads, AllKept, Placed, Updated, Moved;
    k := Rank(v, n);
    RankOfLive(v, n, v.Count());
    assert NodeIs(g, v, n);
    RegionNode(g, v, k);
    PinnedNode(g, v, k, 0);
    BackwardVisit(g, v, m, k, chains);
    ReadHeader(g, v, m, k, k);
    ChainBounds(g, m, k, chains, BackwardThreaded(g, k), BackwardDone(g, k), k);
    var m1 := Updated(m, g.node[k], g.kind[k], chains[k], g.dest[k]);
    MoveInPlace(m1, g.node[k], g.size[k]);
  }

  lemma MoveInPlace(m: Memory, p: Addr, size: int)
    requires 0 <= p && 0 <= size && p + size <= |m|
    ensures Moved(m, p, p, size) == m
  {
  }

  method BackwardPinned(h: Heap, o: Addr, ghost g: Graph, ghost v: View, ghost n: int, ghost chains: seq<seq<Addr>>)
    returns (ghost chains': seq<seq<Addr>>)
    requires Marked(v) && Describes(g, v) && n < v.Count() && BackwardDown(g, v, h.mem, n, chains) && Live(v, n)
    requires o == v.ObjAt(n).at
    modifies h`mem
    ensures BackwardDown(g, v, h.mem, n + 1, chains')
  {
    hide *;
    ghost var k := BackwardPinnedStep(g, v, h.mem, n, chains);
    Update(h, true, o, o, chains[k]);
    UpdatedIs(old(h.mem), o, g.kind[k], chains[k], o);
    chains' := chains[k := []];
  }

  /** The marked ones among the first i pinned objects. */
  ghost function LivePinned(v: View, i: int): seq<Addr>
    requires 0 <= i <= |v.pinned|
  {
    if i == 0 then [] else LivePinned(v, i - 1) + if Live(v, |v.objs| + i - 1) then [v.pinned[i - 1]] else []
  }

  lemma LivePinnedStep(v: View, i: int)
    requires 0 <= i < |v.pinned|
    ensures LivePinned(v, i + 1) == LivePinned(v, i) + if Live(v, |v.objs| + i) then [v.pinned[i]] else []
  {
  }

  lemma NoPinnedYet(v: View)
    ensures 0 <= |v.pinned| && LivePinned(v, 0) == []
  {
  }

  method BackwardHeapList(h: Heap, ghost g: Graph, ghost v: View, ghost chains: seq<seq<Addr>>)
    returns (ghost chains': seq<seq<Addr>>)
    requires Marked(v) && Describes(g, v) && h.pinned == v.pinned && h.symbols == v.symbols
    requires BackwardDown(g, v, h.mem, |v.objs|, chains)
    modifies h`mem, h`pinned
    ensures h.pinned == LivePinned(v, |v.pinned|)
    ensures BackwardDown(g, v, h.mem, |v.objs| + |v.pinned| + |v.symbols|, chains')
  {
    hide *;
    var list, symbols := h.pinned, h.symbols;
    chains' := chains;
    var kept := [];
    NoPinnedYet(v);
    var i := 0;
    while i < |list|
      invariant 0 <= i <= |list| && kept == LivePinned(v, i)
      invariant BackwardDown(g, v, h.mem, |v.objs| + i, chains')
    {
      PinnedAt(v, i);
      LivePinnedStep(v, i);
      ReadDownBackward(g, v, h.mem, |v.objs| + i, chains');
      if h.mem[list[i] + BITS].marked {
        chains' := BackwardPinned(h, list[i], g, v, |v.objs| + i, chains');
        kept := kept + [list[i]];
      }
      i := i + 1;
    }
    h.pinned := kept;
    i := 0;
    while i < |symbols|
      invariant 0 <= i <= |symbols| && h.pinned == kept
      invariant BackwardDown(g, v, h.mem, |v.objs| + |v.pinned| + i, chains')
    {
      SymbolAt(v, i);
      chains' := BackwardPinned(h, symbols[i], g, v, |v.objs| + |v.pinned| + i, chains');
      i := i + 1;
    }
  }

  /** The regions and the objects in them after the collection. */
  ghost predicate RegionsCollected(v: View, regions: seq<Region>, objs: seq<Obj>) {
    && objs == MovedObjs(v, |LiveObjs(v)|)
    && 0 < |regions| <= |v.regions|
    && (forall r :: 0 <= r < |regions| ==>
      regions[r].data == v.regions[r].data <= regions[r].pos <= regions[r].end == v.regions[r].end)
    && Tiling(regions, objs)
  }

  lemma CutRegions(v: View, regions: seq<Region>, region: int, pos: Addr) returns (objs: seq<Obj>)
    requires RegionsAt(v, regions, region, pos, |v.objs|)
    ensures 0 <= region < |regions|
    ensures RegionsCollected(v, regions[region := regions[region].(pos := pos)][..region + 1], objs)
    ensures 0 <= PagesOf(regions[region := regions[region].(pos := pos)][..region + 1][region])
  {
    hide MovedObjs, LiveObjs, FreePlace, Tiling;
    CutIsClosed(regions, region, pos);
    objs := MovedObjs(v, |LiveObjs(v)|);
    CutBounds(v.regions, regions, region, pos, objs);
  }

  lemma CutIsClosed(regions: seq<Region>, region: int, pos: Addr)
    requires 0 <= region < |regions|
    ensures regions[region := regions[region].(pos := pos)][..region + 1] == ClosedAt(regions, region, pos)
  {
  }

  lemma CutBounds(was: seq<Region>, regions: seq<Region>, region: int, pos: Addr, moved: seq<Obj>)
    requires SameBounds(regions, was) && Filled(regions, region, pos, moved)
    ensures var cut := ClosedAt(regions, region, pos);
      && |cut| == region + 1 <= |was| && Tiling(cut, moved) && 0 <= PagesOf(cut[region])
      && forall r :: 0 <= r < |cut| ==> cut[r].data == was[r].data <= cut[r].pos <= cut[r].end == was[r].end
  {
    hide Tiling;
  }

  ghost predicate AllVisited(g: Graph, v: View, m: Memory) {
    |m| == |v.mem| && exists c :: Backward(g, v, m, |g.node|, c)
  }

  lemma EverythingVisited(g: Graph, v: View, m: Memory, chains: seq<seq<Addr>>)
    requires Describes(g, v) && BackwardDown(g, v, m, |v.objs| + |v.pinned| + |v.symbols|, chains)
    ensures AllVisited(g, v, m)
  {
  }

  /** update_backward: besides moving, it cuts the region list after the last region in use. */
  method UpdateBackward(h: Heap, ghost g: Graph, ghost v: View, ghost chains: seq<seq<Addr>>)
    requires Marked(v) && Describes(g, v) && h.regions == v.regions && h.pinned == v.pinned && h.symbols == v.symbols
    requires BackwardAt(g, v, h.mem, 0, chains)
    requires WalkStarts(v.mem, v.regions, v.objs) && 0 < |v.regions|
    modifies h`mem, h`regions, h`current, h`pages, h`pinned, h`objs
    ensures AllVisited(g, v, h.mem) && h.pinned == LivePinned(v, |v.pinned|)
    ensures RegionsCollected(v, h.regions, h.objs) && h.current == |h.regions| - 1
    ensures h.current < |h.regions| && h.pages == PagesOf(h.regions[h.current])
  {
    hide *;
    var free := new RegionAllocator(h.regions, true);
    ghost var c := WalkBackward(h, free, g, v, chains);
    ghost var objs := CutRegions(v, h.regions, free.region, free.pos);
    h.regions := h.regions[free.region := h.regions[free.region].(pos := free.pos)];
    h.current := free.region;
    h.regions := h.regions[..h.current + 1];
    h.objs := objs;
    h.pages := PagesOf(h.regions[h.current]);
    RegionsDone(g, v, h.mem, c);
    c := BackwardHeapList(h, g, v, c);
    EverythingVisited(g, v, h.mem, c);
  }
}
