/** Collector::update_forward, Collector::update_backward and Collector::compact. */
module GcCompact {
  import opened GcMemory
  import opened GcHeap
  import opened GcState
  import opened GcPlan
  import opened GcThreads
  import opened GcGraph
  import opened GcSlide
  import opened GcPasses
  import opened GcForward
  import opened GcRuns
  import opened GcWalk

  // ----- the roots -------------------------------------------------------------------------

  ghost function RootsThreaded(g: Graph, v: View, i: int): set<Addr> {
    set s | s in g.tgt && exists j :: 0 <= j < i && j < |v.roots| && v.roots[j].at == s
  }

  ghost predicate Rooting(g: Graph, v: View, m: Memory, i: int, chains: seq<seq<Addr>>) {
    Threads(g, m, 0, chains, RootsThreaded(g, v, i), {}) && AllKept(g, v, m, 0)
  }

  lemma Unthreaded(g: Graph, v: View)
    requires Marked(v) && Describes(g, v)
    ensures Rooting(g, v, v.mem, 0, seq(|g.node|, _ => []))
    ensures 0 <= |v.objs| && AllDeadOk(v, v.mem, 0, 0)
  {
    GraphIsValid(g, v);
    var chains: seq<seq<Addr>> := seq(|g.node|, _ => []);
    assert RootsThreaded(g, v, 0) == {};
    forall k | 0 <= k < |g.node| ensures ChainOf(g, v.mem, k, chains[k], {}) {
      NodeAt(g, v, k);
      assert EmptyList(v, Visited(v, k));
    }
    forall s | s in g.tgt ensures g.ValidSlot(s, |v.mem|) && SlotOk(g, v.mem, 0, s, chains, {}, {}) {
    }
  }

  lemma RootStep(g: Graph, v: View, i: int)
    requires Marked(v) && Describes(g, v) && 0 <= i < |v.roots|
    ensures var s := v.roots[i].at;
      && s !in RootsThreaded(g, v, i)
      && RootsThreaded(g, v, i + 1) == if s in g.tgt then RootsThreaded(g, v, i) + {s} else RootsThreaded(g, v, i)
  {
    var s := v.roots[i].at;
    forall j | 0 <= j < i ensures v.roots[j].at != s {
      assert v.RootsDistinct(j, i);
    }
  }

  lemma RootsAllThreaded(g: Graph, v: View)
    requires Marked(v) && Describes(g, v)
    ensures RootsThreaded(g, v, |v.roots|) == ForwardThreaded(g, 0)
    ensures ForwardDone(g, 0) == {}
  {
    forall s | s in g.tgt ensures 0 <= g.tgt[s] && (g.src[s] < 0 <==> s in RootsThreaded(g, v, |v.roots|)) {
      SlotInGraph(g, v, s);
      assert SlotIs(g, v, s);
      var i, r := SlotCases(v, s);
      if r >= 0 {
        RootWordInGraph(g, v, r);
      } else {
        ObjectSlot(v, i, s);
        assert SlotIs(g, v, s);
        forall j | 0 <= j < |v.roots| ensures v.roots[j].at != s {
          RootIsNoSlot(v, j, i);
        }
      }
    }
  }

  /** each_root with the threading function. */
  method ThreadRoots(h: Heap, ghost g: Graph, ghost v: View) returns (ghost chains: seq<seq<Addr>>)
    requires h.mem == v.mem && h.regions == v.regions && h.roots == v.roots && Marked(v) && Describes(g, v)
    modifies h`mem
    ensures h.regions == v.regions && ForwardAt(g, v, h.mem, 0, chains)
  {
    Unthreaded(g, v);
    chains := seq(|g.node|, _ => []);
    var roots := h.roots;
    var i := 0;
    while i < |roots|
      invariant 0 <= i <= |roots| && |h.mem| == |v.mem|
      invariant Rooting(g, v, h.mem, i, chains) && AllDeadOk(v, h.mem, 0, 0)
    {
      chains := ThreadRoot(h, roots[i], g, v, i, chains);
      i := i + 1;
    }
    RootsAllThreaded(g, v);
  }

  method ThreadRoot(h: Heap, root: Root, ghost g: Graph, ghost v: View, ghost i: int, ghost chains: seq<seq<Addr>>)
    returns (ghost chains': seq<seq<Addr>>)
    requires Marked(v) && Describes(g, v) && |h.mem| == |v.mem|
    requires 0 <= i < |v.roots| && root == v.roots[i]
    requires Rooting(g, v, h.mem, i, chains) && AllDeadOk(v, h.mem, 0, 0)
    modifies h`mem
    ensures |h.mem| == |v.mem| && Rooting(g, v, h.mem, i + 1, chains') && AllDeadOk(v, h.mem, 0, 0)
  {
    ghost var s := root.at;
    RootStep(g, v, i);
    RootWordInGraph(g, v, i);
    assert v.RootOk(i) && KeptRoot(g, v, h.mem, i);
    if s in g.tgt {
      SlotInGraph(g, v, s);
      assert SlotOk(g, h.mem, 0, s, chains, RootsThreaded(g, v, i), {});
    }
    var w := h.mem[root.at];
    assert w == At(v.mem, root.at);
    chains' := chains;
    if IsRef(root.sort, w) {
      ThreadingKeeps(g, v, h.mem, chains, RootsThreaded(g, v, i), {}, s);
      ThreadData(h, root.at, Target(root.sort, w));
      chains' := chains[g.tgt[s] := [s] + chains[g.tgt[s]]];
      GraphWritesKeepDead(g, v, old(h.mem), h.mem, 0, 0);
    }
  }

  // ----- the forward pass ------------------------------------------------------------------

  /** The walker's object reads as it did, while the first k nodes have been dealt with. */
  lemma ReadObject(g: Graph, v: View, m: Memory, lo: int, w: int, seen: int)
    requires Marked(v) && Describes(g, v) && |m| == |v.mem| && AllKept(g, v, m, lo)
    requires 0 <= w < |v.objs| && 0 <= seen <= |v.objs| && AllDeadOk(v, m, w, seen)
    requires lo <= Rank(v, w)
    requires Live(v, w) || HeaderKept(v, m, w)
    ensures var o := v.objs[w];
      && 0 < o.at && 3 <= o.size && o.at + o.size <= |m|
      && m[o.at + BITS].Bits? && SizeAt(m, o.at) == o.size
      && MarkedAt(m, o.at) == Live(v, w) && KindAt(m, o.at) == KindAt(v.mem, o.at) != FreeRun
  {
    assert v.ObjOk(w);
    if Live(v, w) {
      assert NodeIs(g, v, w);
      ReadHeader(g, v, m, lo, Rank(v, w));
    }
  }

  /** The forward pass over the regions has come to object w. */
  ghost predicate ForwardAt(g: Graph, v: View, m: Memory, w: int, chains: seq<seq<Addr>>) {
    && 0 <= w <= |v.objs| && |m| == |v.mem|
    && Forward(g, v, m, Rank(v, w), chains)
    && AllDeadOk(v, m, 0, w)
  }

  ghost function FreePlace(v: View, w: int): Place
    requires 0 <= w <= |v.objs|
  {
    if Rank(v, w) <= |LiveObjs(v)| then FreeAt(v.regions, LiveObjs(v), Rank(v, w)) else Place(0, NULL)
  }

  lemma FirstPlace(v: View)
    requires Marked(v)
    ensures Tiling(v.regions, v.objs) && 0 < |v.regions| && FreePlace(v, 0) == Place(0, v.regions[0].data)
    ensures SameBounds(v.regions, v.regions)
  {
  }

  lemma PlacingLive(g: Graph, v: View, w: int)
    requires Marked(v) && Describes(g, v) && 0 <= w < |v.objs|
    ensures PlaceOk(v.regions, FreePlace(v, w))
    ensures Rank(v, w) <= |LiveObjs(v)|
    ensures Live(v, w) ==>
      var q := Fit(v.regions, FreePlace(v, w), v.objs[w].size);
      && 0 <= q.region < |v.regions| && Rank(v, w) < |g.node| && Rank(v, w) < |LiveObjs(v)|
      && q.pos == g.dest[Rank(v, w)] && g.node[Rank(v, w)] == v.objs[w].at
      && NotPast(q, v.objs[w].region, v.objs[w].at)
      && FreePlace(v, w + 1) == Place(q.region, q.pos + v.objs[w].size)
    ensures !Live(v, w) ==> FreePlace(v, w + 1) == FreePlace(v, w)
  {
    AlivePrefix(v, w, |v.objs|);
    LiveObjsArePlaceable(v);
    NeverOutOfSpace(v.regions, LiveObjs(v), Rank(v, w));
    if Live(v, w) {
      RankOfLive(v, w, |v.objs|);
      RankOfLive(v, w, v.Count());
      assert NodeIs(g, v, w);
    }
  }

  /** The forward pass over the objects of the regions. */
  method WalkForward(h: Heap, ghost g: Graph, ghost v: View, ghost chains: seq<seq<Addr>>)
    returns (ghost chains': seq<seq<Addr>>)
    requires Marked(v) && Describes(g, v) && h.regions == v.regions
    requires ForwardAt(g, v, h.mem, 0, chains)
    modifies h`mem, h`regions
    ensures h.regions == v.regions && ForwardAt(g, v, h.mem, |v.objs|, chains')
  {
    hide *;
    FirstPlace(v);
    var free := new RegionAllocator(h.regions, false);
    var obj := new RegionWalker();
    var prev := NULL;
    ghost var head, w := 0, 0;
    chains' := chains;
    NoRunYet(v);
    var more := obj.Load(h.regions, v.objs);
    while more
      invariant 0 <= w <= |v.objs| && h.regions == v.regions && !free.backward
      invariant ForwardAt(g, v, h.mem, w, chains') && PrevOk(v, prev, head, w)
      invariant more == (w < |v.objs|) && obj.Reached(v.objs, w)
      invariant Place(free.region, free.pos) == FreePlace(v, w)
      decreases |v.objs| - w
    {
      ReadForward(g, v, h.mem, w, chains');
      WalkerIsAt(obj, v, w);
      var i := obj.pos;
      var size := SizeAt(h.mem, i);
      more := obj.Step(size, h.regions, v.regions, v.objs, w);
      if h.mem[i + BITS].marked {
        chains' := ForwardLive(h, i, size, free, g, v, w, chains');
        NoRunAfterLive(v, head, w);
        prev := NULL;
      } else {
        WalkerIsAt(obj, v, w + 1);
        prev, head := ForwardDead(h, i, prev, obj.region, obj.pos, g, v, w, head, chains');
        PlacingLive(g, v, w);
      }
      w := w + 1;
    }
  }

  lemma NoRunYet(v: View)
    ensures 0 <= |v.objs| && PrevOk(v, NULL, 0, 0)
  {
  }

  lemma NoRunAfterLive(v: View, head: int, w: int)
    requires 0 <= w < |v.objs| && Live(v, w)
    ensures PrevOk(v, NULL, head, w + 1)
  {
  }

  lemma WalkerIsAt(obj: RegionWalker, v: View, w: int)
    requires 0 <= w <= |v.objs| && obj.Reached(v.objs, w)
    ensures if w < |v.objs| then obj.region == v.objs[w].region && obj.pos == v.objs[w].at else obj.region == -1
    ensures AgreeFrom(v.regions, v.regions, obj.region)
    ensures Marked(v) && w < |v.objs| ==> 0 <= obj.region < |v.regions| && InRegion(v.regions, v.objs[w])
  {
  }

  lemma ReadForward(g: Graph, v: View, m: Memory, w: int, chains: seq<seq<Addr>>)
    requires Marked(v) && Describes(g, v) && ForwardAt(g, v, m, w, chains) && w < |v.objs|
    ensures var o := v.objs[w];
      && 0 < o.at && 3 <= o.size && o.at + o.size <= |m| && 0 <= o.at + BITS < |m|
      && m[o.at + BITS].Bits? && SizeAt(m, o.at) == o.size && m[o.at + BITS].marked == Live(v, w)
  {
    assert DeadOk(v, m, w, w);
    ReadObject(g, v, m, 0, w, w);
  }

  /** A live object: it is given a place, its chain is resolved and its own slots are threaded. */
  method ForwardLive(h: Heap, i: Addr, size: int, free: RegionAllocator, ghost g: Graph, ghost v: View, ghost w: int,
                     ghost chains: seq<seq<Addr>>)
    returns (ghost chains': seq<seq<Addr>>)
    requires Marked(v) && Describes(g, v) && ForwardAt(g, v, h.mem, w, chains)
    requires w < |v.objs| && Live(v, w) && i == v.objs[w].at && size == v.objs[w].size
    requires h.regions == v.regions && !free.backward && Place(free.region, free.pos) == FreePlace(v, w)
    modifies h`mem, h`regions, free
    ensures h.regions == v.regions && ForwardAt(g, v, h.mem, w + 1, chains')
    ensures Place(free.region, free.pos) == FreePlace(v, w + 1)
  {
    ForwardPlaceFits(g, v, w);
    hide *;
    var pos := free.Allocate(h, size, v.regions, []);
    chains' := VisitLive(h, i, pos, g, v, w, chains);
  }

  lemma ForwardPlaceFits(g: Graph, v: View, w: int)
    requires Marked(v) && Describes(g, v) && 0 <= w < |v.objs| && Live(v, w)
    ensures SameBounds(v.regions, v.regions) && Geometry(|v.mem|, v.regions) && FREE_BLOCK <= v.objs[w].size
    ensures PlaceOk(v.regions, FreePlace(v, w)) && Rank(v, w + 1) == Rank(v, w) + 1
    ensures var q := Fit(v.regions, FreePlace(v, w), v.objs[w].size);
      && 0 <= q.region < |v.regions| && Rank(v, w) < |g.node| == |g.dest| && q.pos == g.dest[Rank(v, w)]
      && FreePlace(v, w + 1) == Place(q.region, q.pos + v.objs[w].size)
  {
    PlacingLive(g, v, w);
    RankOfLive(v, w, v.Count());
    assert InRegion(v.regions, v.objs[w]);
  }

  method VisitLive(h: Heap, i: Addr, pos: Addr, ghost g: Graph, ghost v: View, ghost w: int,
                   ghost chains: seq<seq<Addr>>)
    returns (ghost chains': seq<seq<Addr>>)
    requires Marked(v) && Describes(g, v) && ForwardAt(g, v, h.mem, w, chains)
    requires w < |v.objs| && Live(v, w) && i == v.objs[w].at
    requires Rank(v, w) < |g.node| == |g.dest| && pos == g.dest[Rank(v, w)]
    modifies h`mem
    ensures ForwardAt(g, v, h.mem, w + 1, chains')
  {
    assert NodeIs(g, v, w);
    RankOfLive(v, w, v.Count());
    chains' := VisitForward(h, i, pos, g, v, Rank(v, w), chains);
    GraphWritesKeepDead(g, v, old(h.mem), h.mem, 0, w);
    LiveProgress(v, h.mem, w);
  }

  lemma DeadStep(g: Graph, v: View, m: Memory, w: int, prev: Addr, head: int, region: int, pos: Addr,
                 chains: seq<seq<Addr>>)
    requires Marked(v) && Describes(g, v) && ForwardAt(g, v, m, w, chains)
    requires w < |v.objs| && !Live(v, w) && prev != NULL && PrevOk(v, prev, head, w)
    requires if w + 1 < |v.objs| then region == v.objs[w + 1].region && pos == v.objs[w + 1].at else region == -1
    ensures 0 <= prev && prev + 2 < |m| && m[prev + BITS].Bits?
    ensures ForwardAt(g, v, Recorded(m, prev, region, pos), w + 1, chains) && PrevOk(v, prev, head, w + 1)
  {
    assert Rank(v, w + 1) == Rank(v, w);
    RunGrows(v, m, w, prev, head, region, pos);
    DeadWritesKeep(g, v, m, Recorded(m, prev, region, pos), Rank(v, w), chains, head);
  }

  /** A dead object: the start of a run, or one more, in which case prev becomes a free block. */
  method ForwardDead(h: Heap, i: Addr, prev: Addr, region: int, pos: Addr,
                     ghost g: Graph, ghost v: View, ghost w: int, ghost head: int, ghost chains: seq<seq<Addr>>)
    returns (prev': Addr, ghost head': int)
    requires Marked(v) && Describes(g, v) && ForwardAt(g, v, h.mem, w, chains)
    requires w < |v.objs| && !Live(v, w) && i == v.objs[w].at && PrevOk(v, prev, head, w)
    requires if w + 1 < |v.objs| then region == v.objs[w + 1].region && pos == v.objs[w + 1].at else region == -1
    modifies h`mem
    ensures ForwardAt(g, v, h.mem, w + 1, chains) && PrevOk(v, prev', head', w + 1)
  {
    hide Marked, Describes, ForwardAt, PrevOk, Live;
    if prev != NULL {
      DeadStep(g, v, h.mem, w, prev, head, region, pos, chains);
      h.mem := h.mem[prev + BITS := Bits(FreeRun, h.mem[prev + BITS].marked)];
      h.mem := h.mem[prev + EXTRA := Num(region)];
      h.mem := h.mem[prev + DATA := Ptr(pos)];
      prev', head' := prev, head;
    } else {
      DeadStarts(g, v, h.mem, w, head, chains);
      prev', head' := i, w;
    }
  }

  lemma DeadStarts(g: Graph, v: View, m: Memory, w: int, head: int, chains: seq<seq<Addr>>)
    requires Marked(v) && Describes(g, v) && ForwardAt(g, v, m, w, chains)
    requires w < |v.objs| && !Live(v, w) && PrevOk(v, NULL, head, w)
    ensures ForwardAt(g, v, m, w + 1, chains) && PrevOk(v, v.objs[w].at, w, w + 1)
  {
    assert Rank(v, w + 1) == Rank(v, w);
    RunStarts(v, m, w);
  }

  /** The forward pass has come to object n, a pinned one or a symbol. */
  ghost predicate ForwardDown(g: Graph, v: View, m: Memory, n: int, chains: seq<seq<Addr>>) {
    && |v.objs| <= n <= v.Count() && |m| == |v.mem|
    && Forward(g, v, m, Rank(v, n), chains)
    && AllDeadOk(v, m, 0, |v.objs|)
  }

  method ForwardPinned(h: Heap, o: Addr, ghost g: Graph, ghost v: View, ghost n: int, ghost chains: seq<seq<Addr>>)
    returns (ghost chains': seq<seq<Addr>>)
    requires Marked(v) && Describes(g, v) && n < v.Count() && ForwardDown(g, v, h.mem, n, chains)
    requires o == v.ObjAt(n).at && Live(v, n)
    modifies h`mem
    ensures ForwardDown(g, v, h.mem, n + 1, chains')
  {
    RankOfLive(v, n, v.Count());
    assert NodeIs(g, v, n);
    RegionNode(g, v, Rank(v, n));
    PinnedNode(g, v, Rank(v, n), 0);
    chains' := VisitForward(h, o, o, g, v, Rank(v, n), chains);
    GraphWritesKeepDead(g, v, old(h.mem), h.mem, 0, |v.objs|);
  }

  /** The mark bit of a pinned object or symbol, read during a pass. */
  lemma ReadPinned(g: Graph, v: View, m: Memory, lo: int, n: int)
    requires Marked(v) && Describes(g, v) && |m| == |v.mem| && AllKept(g, v, m, lo)
    requires |v.objs| <= n < v.Count() && lo <= Rank(v, n)
    ensures var o := v.ObjAt(n).at;
      0 < o && 0 <= o + BITS < |m| && m[o + BITS].Bits? && m[o + BITS].marked == Live(v, n)
  {
    assert v.ObjOk(n);
    if Live(v, n) {
      assert NodeIs(g, v, n);
      ReadHeader(g, v, m, lo, Rank(v, n));
    } else {
      assert HeaderKept(v, m, n);
    }
  }

  lemma PinnedAt(v: View, i: int)
    requires 0 <= i < |v.pinned|
    ensures |v.objs| + i < v.Count() && v.ObjAt(|v.objs| + i).at == v.pinned[i]
  {
  }

  lemma SymbolAt(v: View, i: int)
    requires 0 <= i < |v.symbols|
    ensures |v.objs| + |v.pinned| + i < v.Count() && v.ObjAt(|v.objs| + |v.pinned| + i).at == v.symbols[i]
    ensures Marked(v) ==> Live(v, |v.objs| + |v.pinned| + i)
  {
  }

  lemma DeadPinned(g: Graph, v: View, m: Memory, n: int, chains: seq<seq<Addr>>)
    requires n < v.Count() && ForwardDown(g, v, m, n, chains) && !Live(v, n)
    ensures ForwardDown(g, v, m, n + 1, chains)
  {
  }

  lemma RegionsWalked(g: Graph, v: View, m: Memory, chains: seq<seq<Addr>>)
    requires ForwardAt(g, v, m, |v.objs|, chains)
    ensures ForwardDown(g, v, m, |v.objs|, chains)
  {
  }

  lemma ReadDown(g: Graph, v: View, m: Memory, n: int, chains: seq<seq<Addr>>)
    requires Marked(v) && Describes(g, v) && n < v.Count() && ForwardDown(g, v, m, n, chains)
    ensures var o := v.ObjAt(n).at;
      0 < o && 0 <= o + BITS < |m| && m[o + BITS].Bits? && m[o + BITS].marked == Live(v, n)
  {
    ReadPinned(g, v, m, 0, n);
  }

  /** update_forward */
  method UpdateForward(h: Heap, ghost g: Graph, ghost v: View) returns (ghost chains: seq<seq<Addr>>)
    requires h.mem == v.mem && h.regions == v.regions && h.pinned == v.pinned && h.symbols == v.symbols
      && h.roots == v.roots
    requires Marked(v) && Describes(g, v)
    modifies h`mem, h`regions
    ensures h.regions == v.regions && ForwardDown(g, v, h.mem, |v.objs| + |v.pinned| + |v.symbols|, chains)
  {
    hide *;
    var pinned, symbols := h.pinned, h.symbols;
    chains := ThreadRoots(h, g, v);
    chains := WalkForward(h, g, v, chains);
    RegionsWalked(g, v, h.mem, chains);
    var i := 0;
    while i < |pinned|
      invariant 0 <= i <= |pinned| && h.regions == v.regions
      invariant ForwardDown(g, v, h.mem, |v.objs| + i, chains)
    {
      PinnedAt(v, i);
      ReadDown(g, v, h.mem, |v.objs| + i, chains);
      if h.mem[pinned[i] + BITS].marked {
        chains := ForwardPinned(h, pinned[i], g, v, |v.objs| + i, chains);
      } else {
        DeadPinned(g, v, h.mem, |v.objs| + i, chains);
      }
      i := i + 1;
    }
    i := 0;
    while i < |symbols|
      invariant 0 <= i <= |symbols| && h.regions == v.regions
      invariant ForwardDown(g, v, h.mem, |v.objs| + |v.pinned| + i, chains)
    {
      SymbolAt(v, i);
      chains := ForwardPinned(h, symbols[i], g, v, |v.objs| + |v.pinned| + i, chains);
      i := i + 1;
    }
  }
}
