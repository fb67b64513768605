/** The heap after compaction: well formed, and a renamed copy of the live part of the heap before. */
module GcSurvive {
  import opened GcMemory
  import opened GcHeap
  import opened GcThreads
  import opened GcGraph
  import opened GcSlide
  import opened GcPasses
  import opened GcMove
  import opened GcBackward

  /** c is the heap the two passes make of the marked heap v. */
  ghost predicate Compacted(g: Graph, v: View, c: View) {
    && Marked(v) && Describes(g, v)
    && AllVisited(g, v, c.mem)
    && RegionsCollected(v, c.regions, c.objs)
    && c.pinned == LivePinned(v, |v.pinned|)
    && c.symbols == v.symbols && c.roots == v.roots
  }

  // ----- the objects of the new heap are the nodes, in order -------------------------------

  lemma {:induction false} LivePinnedRank(v: View, i: int)
    requires 0 <= i <= |v.pinned|
    ensures |LiveObjs(v)| + |LivePinned(v, i)| == Rank(v, |v.objs| + i)
    ensures forall j :: 0 <= j < |LivePinned(v, i)| ==>
      LivePinned(v, i)[j] == v.ObjAt(Alive(v, |v.objs| + i)[|LiveObjs(v)| + j]).at
  {
    if i > 0 {
      LivePinnedRank(v, i - 1);
    }
  }

  lemma {:induction false} SymbolRank(v: View, i: int)
    requires Marked(v) && 0 <= i <= |v.symbols|
    ensures Rank(v, |v.objs| + |v.pinned| + i) == Rank(v, |v.objs| + |v.pinned|) + i
  {
    if i > 0 {
      SymbolRank(v, i - 1);
    }
  }

  lemma CollectedCount(g: Graph, v: View, c: View)
    requires Compacted(g, v, c)
    ensures c.Count() == |g.node| && |c.objs| == |LiveObjs(v)|
      && |LiveObjs(v)| + |c.pinned| == Rank(v, |v.objs| + |v.pinned|)
  {
    LivePinnedRank(v, |v.pinned|);
    SymbolRank(v, |v.symbols|);
  }

  lemma PinnedStays(g: Graph, v: View, k: int)
    requires Marked(v) && Describes(g, v) && |LiveObjs(v)| <= k < Rank(v, |v.objs| + |v.pinned|)
    ensures k < |g.node| && k - |LiveObjs(v)| < |LivePinned(v, |v.pinned|)|
    ensures LivePinned(v, |v.pinned|)[k - |LiveObjs(v)|] == g.node[k]
  {
    LivePinnedRank(v, |v.pinned|);
    AlivePrefix(v, |v.objs| + |v.pinned|, v.Count());
    NodeAt(g, v, k);
  }

  lemma SymbolStays(g: Graph, v: View, i: int)
    requires Marked(v) && Describes(g, v) && 0 <= i < |v.symbols|
    ensures var k := Rank(v, |v.objs| + |v.pinned|) + i; k < |g.node| && g.node[k] == v.symbols[i]
  {
    SymbolRank(v, i);
    var n := |v.objs| + |v.pinned| + i;
    RankOfLive(v, n, v.Count());
    assert NodeIs(g, v, n);
  }

  /** The k-th object of the new heap is the k-th node. */
  lemma CollectedAddress(g: Graph, v: View, c: View, k: int)
    requires Compacted(g, v, c) && 0 <= k < |g.node|
    ensures k < c.Count() && c.ObjAt(k).at == g.dest[k]
    ensures k < |c.objs| ==> c.ObjAt(k).size == g.size[k]
    ensures |c.objs| <= k ==> g.dest[k] == g.node[k]
    ensures k < |c.objs| <==> k < |LiveObjs(v)|
  {
    CollectedCount(g, v, c);
    if k < |c.objs| {
      DestFits(g, v, k);
      RegionNode(g, v, k);
    } else {
      PinnedNode(g, v, k, 0);
      if k < |c.objs| + |c.pinned| {
        PinnedStays(g, v, k);
      } else {
        SymbolStays(g, v, k - |c.objs| - |c.pinned|);
      }
    }
  }

  // ----- every object is intact ------------------------------------------------------------

  lemma IsPlaced(g: Graph, v: View, c: View, k: int)
    requires Compacted(g, v, c) && 0 <= k < |g.node|
    ensures Placed(g, v, c.mem, k)
    ensures 0 < g.dest[k] && g.dest[k] + g.size[k] <= |c.mem| && 3 <= g.size[k] && |c.mem| == |v.mem|
  {
    DestInBounds(g, v, k);
    var chains :| Backward(g, v, c.mem, |g.node|, chains);
  }

  lemma CollectedHeader(g: Graph, v: View, c: View, k: int)
    requires Compacted(g, v, c) && 0 <= k < |g.node|
    ensures var o := g.dest[k];
      && 0 < o && 3 <= g.size[k] && o + g.size[k] <= |c.mem|
      && At(c.mem, o + DATA) == Ptr(NULL) && At(c.mem, o + BITS) == Bits(g.kind[k], false)
      && KindAt(c.mem, o) == g.kind[k] == KindAt(v.mem, g.node[k]) != FreeRun
      && SizeAt(c.mem, o) == g.size[k] == SizeAt(v.mem, g.node[k])
      && (!g.kind[k].Record? ==> At(c.mem, o + EXTRA).Num?)
  {
    IsPlaced(g, v, c, k);
    NodeAt(g, v, k);
    assert v.ObjOk(Visited(v, k));
    var o := g.dest[k];
    assert At(c.mem, o + DATA) == FinalWord(g, v.mem, k, DATA);
    assert At(c.mem, o + BITS) == FinalWord(g, v.mem, k, BITS);
    assert At(c.mem, o + EXTRA) == FinalWord(g, v.mem, k, EXTRA);
    if !g.kind[k].Record? {
      FieldInGraph(g, v, k, EXTRA);
    }
  }

  /** A word of the k-th object: renamed if it is a reference, else unchanged. */
  lemma CollectedField(g: Graph, v: View, c: View, k: int, f: int)
    requires Compacted(g, v, c) && 0 <= k < |g.node| && 2 <= f < g.size[k]
    ensures var sort := SortOf(g.kind[k], f); var w := At(v.mem, g.node[k] + f); var w' := At(c.mem, g.dest[k] + f);
      && IsRef(sort, w') == IsRef(sort, w)
      && if IsRef(sort, w) then
           exists t :: 0 <= t < |g.node| && g.node[t] == Target(sort, w) && g.dest[t] == Target(sort, w')
             && w == Ptr(g.node[t] + Bias(g.kind[t])) && w' == Ptr(g.dest[t] + Bias(g.kind[t]))
         else w' == w
  {
    IsPlaced(g, v, c, k);
    CollectedHeader(g, v, c, k);
    FieldInGraph(g, v, k, f);
    var s := g.node[k] + f;
    assert At(c.mem, g.dest[k] + f) == FinalWord(g, v.mem, k, f);
    if IsSlot(v.mem, g.node[k], f) {
      SlotInGraph(g, v, s);
      ReferenceRenamed(g, v, k, f);
      IsPlaced(g, v, c, g.tgt[s]);
    }
  }

  /** Character data refers to blocks and nothing else does, so a slot's sort agrees with its
      target's kind. */
  lemma ReferenceRenamed(g: Graph, v: View, k: int, f: int)
    requires Marked(v) && Describes(g, v) && 0 <= k < |g.node| && 2 <= f < g.size[k] && IsSlot(v.mem, g.node[k], f)
    ensures var sort := SortOf(KindAt(v.mem, g.node[k]), f);
      exists t :: 0 <= t < |g.node| && g.node[k] + f in g.tgt && t == g.tgt[g.node[k] + f]
        && (sort == CharData <==> g.kind[t] == Block)
  {
    hide Rank, Live, LiveTarget, LiveSlotIn;
    FieldInGraph(g, v, k, f);
    NodeAt(g, v, k);
    var t := g.tgt[g.node[k] + f];
    NodeAt(g, v, t);
    assert v.ObjResolves(Visited(v, k));
    assert v.Resolves(SortOf(KindAt(v.mem, g.node[k]), f), At(v.mem, g.node[k] + f));
  }

  lemma RootRenamed(g: Graph, v: View, r: int)
    requires Marked(v) && Describes(g, v) && 0 <= r < |v.roots|
    requires IsRef(v.roots[r].sort, At(v.mem, v.roots[r].at))
    ensures var s := v.roots[r].at;
      s in g.tgt && 0 <= g.tgt[s] < |g.node|
      && (v.roots[r].sort == CharData <==> g.kind[g.tgt[s]] == Block)
  {
    RootWordInGraph(g, v, r);
    assert v.RootOk(r);
    NodeAt(g, v, g.tgt[v.roots[r].at]);
  }

  lemma RootResolved(g: Graph, v: View, c: View, r: int)
    requires Compacted(g, v, c) && 0 <= r < |v.roots|
    ensures var s := v.roots[r].at;
      if s in g.tgt then g.ValidSlot(s, |v.mem|) && At(c.mem, s) == g.NewWord(s) && At(v.mem, s) == g.OldWord(s)
      else At(c.mem, s) == At(v.mem, s)
  {
    var s := v.roots[r].at;
    RootWordInGraph(g, v, r);
    var chains :| Backward(g, v, c.mem, |g.node|, chains);
    assert KeptRoot(g, v, c.mem, r);
    if s in g.tgt {
      SlotInGraph(g, v, s);
      assert SlotOk(g, c.mem, |g.node|, s, chains, BackwardThreaded(g, |g.node|), BackwardDone(g, |g.node|));
    }
  }

  lemma CollectedRoot(g: Graph, v: View, c: View, r: int)
    requires Compacted(g, v, c) && 0 <= r < |v.roots|
    ensures var sort := v.roots[r].sort; var w := At(v.mem, v.roots[r].at); var w' := At(c.mem, v.roots[r].at);
      && IsRef(sort, w') == IsRef(sort, w)
      && if IsRef(sort, w) then
           exists t :: 0 <= t < |g.node| && g.node[t] == Target(sort, w) && g.dest[t] == Target(sort, w')
             && w == Ptr(g.node[t] + Bias(g.kind[t])) && w' == Ptr(g.dest[t] + Bias(g.kind[t]))
             && (sort == CharData <==> g.kind[t] == Block)
         else w' == w
  {
    RootWordInGraph(g, v, r);
    RootResolved(g, v, c, r);
    var s := v.roots[r].at;
    if IsRef(v.roots[r].sort, At(v.mem, s)) {
      RootRenamed(g, v, r);
      DestInBounds(g, v, g.tgt[s]);
      hide Marked, Describes, AllVisited, RegionsCollected;
    }
  }

  // ----- the new heap is well formed -------------------------------------------------------

  lemma NewAddress(g: Graph, v: View, c: View, t: int)
    requires Compacted(g, v, c) && 0 <= t < |g.node|
    ensures g.dest[t] in c.Addresses()
  {
    CollectedAddress(g, v, c, t);
    assert c.ObjAt(t).at == g.dest[t];
  }

  lemma CollectedObjOk(g: Graph, v: View, c: View, k: int)
    requires Compacted(g, v, c) && 0 <= k < c.Count()
    ensures c.ObjOk(k) && c.ObjIdle(k) && k < |g.node| && c.ObjAt(k).at == g.dest[k] && c.ObjAt(k).size == g.size[k]
  {
    CollectedCount(g, v, c);
    CollectedAddress(g, v, c, k);
    CollectedHeader(g, v, c, k);
  }

  lemma CollectedResolves(g: Graph, v: View, c: View, k: int)
    requires Compacted(g, v, c) && 0 <= k < c.Count()
    ensures c.ObjResolves(k)
  {
    hide View.Resolves, IsSlot, AllVisited, RegionsCollected, Marked;
    CollectedObjOk(g, v, c, k);
    CollectedHeader(g, v, c, k);
    var o := g.dest[k];
    forall f | IsSlot(c.mem, o, f) ensures c.Resolves(SortOf(KindAt(c.mem, o), f), At(c.mem, o + f)) {
      CollectedSlotResolves(g, v, c, k, f);
    }
  }

  lemma CompactedFrom(g: Graph, v: View, c: View)
    requires Compacted(g, v, c)
    ensures Marked(v) && Describes(g, v)
  {
  }

  lemma OneNode(g: Graph, v: View, t: int, u: int)
    requires Marked(v) && Describes(g, v) && 0 <= t < |g.node| && 0 <= u < |g.node| && g.node[t] == g.node[u]
    ensures t == u
  {
    hide Marked, Describes;
    NodesInBounds(g, v, t, u);
    NodesInBounds(g, v, u, t);
  }

  /** The new word of a field that held a reference. */
  lemma CollectedTarget(g: Graph, v: View, c: View, k: int, f: int) returns (t: int)
    requires Compacted(g, v, c) && 0 <= k < |g.node| && 2 <= f < g.size[k]
    requires IsRef(SortOf(g.kind[k], f), At(c.mem, g.dest[k] + f))
    ensures 0 <= t < |g.node| && g.dest[t] == Target(SortOf(g.kind[k], f), At(c.mem, g.dest[k] + f))
    ensures SortOf(g.kind[k], f) == CharData <==> g.kind[t] == Block
  {
    hide Compacted, Marked, Describes;
    CompactedFrom(g, v, c);
    CollectedHeader(g, v, c, k);
    CollectedField(g, v, c, k, f);
    assert IsSlot(v.mem, g.node[k], f);
    ReferenceRenamed(g, v, k, f);
    FieldInGraph(g, v, k, f);
    t := g.tgt[g.node[k] + f];
    var sort, w, w' := SortOf(g.kind[k], f), At(v.mem, g.node[k] + f), At(c.mem, g.dest[k] + f);
    var u :| 0 <= u < |g.node| && g.node[u] == Target(sort, w) && g.dest[u] == Target(sort, w');
    OneNode(g, v, t, u);
  }

  lemma CollectedSlotResolves(g: Graph, v: View, c: View, k: int, f: int)
    requires Compacted(g, v, c) && 0 <= k < c.Count() && k < |g.node| && k < |g.dest| && IsSlot(c.mem, g.dest[k], f)
    ensures c.Resolves(SortOf(KindAt(c.mem, g.dest[k]), f), At(c.mem, g.dest[k] + f))
  {
    hide Compacted;
    CollectedHeader(g, v, c, k);
    var t := CollectedTarget(g, v, c, k, f);
    NewAddress(g, v, c, t);
    CollectedHeader(g, v, c, t);
  }

  lemma CollectedSeparate(g: Graph, v: View, c: View, i: int, j: int)
    requires Compacted(g, v, c) && 0 <= i < j < c.Count()
    ensures c.Separate(i, j)
  {
    CollectedObjOk(g, v, c, i);
    CollectedObjOk(g, v, c, j);
    DestsApart(g, v, i, j);
  }

  lemma CollectedOutside(g: Graph, v: View, c: View, k: int, r: int)
    requires Compacted(g, v, c) && |c.objs| <= k < c.Count() && 0 <= r < |c.regions|
    ensures c.OutsideRegions(k, r)
  {
    CollectedObjOk(g, v, c, k);
    CollectedAddress(g, v, c, k);
    PinnedNode(g, v, k, r);
  }

  lemma CollectedRootOk(g: Graph, v: View, c: View, i: int)
    requires Compacted(g, v, c) && 0 <= i < |c.roots|
    ensures c.RootOk(i)
  {
    assert v.RootOk(i);
    CollectedRoot(g, v, c, i);
    var sort, w, w' := v.roots[i].sort, At(v.mem, v.roots[i].at), At(c.mem, v.roots[i].at);
    if IsRef(sort, w) {
      var t :| 0 <= t < |g.node| && g.node[t] == Target(sort, w) && g.dest[t] == Target(sort, w')
             && w == Ptr(g.node[t] + Bias(g.kind[t])) && w' == Ptr(g.dest[t] + Bias(g.kind[t]))
             && (sort == CharData <==> g.kind[t] == Block);
      NewAddress(g, v, c, t);
      CollectedHeader(g, v, c, t);
    }
  }

  lemma CollectedRootOutside(g: Graph, v: View, c: View, i: int, k: int)
    requires Compacted(g, v, c) && 0 <= i < |c.roots| && 0 <= k < c.Count()
    ensures c.RootOutsideObj(i, k)
  {
    CollectedObjOk(g, v, c, k);
    DestMissesRoots(g, v, k, i);
  }

  lemma CollectedGeometry(v: View, c: View)
    requires Marked(v) && RegionsCollected(v, c.regions, c.objs) && |c.mem| == |v.mem| && c.roots == v.roots
    ensures Geometry(|c.mem|, c.regions) && Tiling(c.regions, c.objs)
    ensures forall i, r :: 0 <= i < |c.roots| && 0 <= r < |c.regions| ==> c.RootOutsideRegion(i, r)
    ensures forall i, j :: 0 <= i < j < |c.roots| ==> c.RootsDistinct(i, j)
  {
    forall r, q | 0 <= r < q < |c.regions| ensures RegionsApart(c.regions[r], c.regions[q]) {
      RegionCases(v, r, q);
    }
    forall i, r | 0 <= i < |c.roots| && 0 <= r < |c.regions| ensures c.RootOutsideRegion(i, r) {
      assert v.RootOutsideRegion(i, r);
    }
    forall i, j | 0 <= i < j < |c.roots| ensures c.RootsDistinct(i, j) {
      assert v.RootsDistinct(i, j);
    }
  }

  /** After compaction the heap is well formed and idle again. */
  lemma CompactedIsValid(g: Graph, v: View, c: View)
    requires Compacted(g, v, c)
    ensures c.Valid()
  {
    CollectedGeometry(v, c);
    forall k | 0 <= k < c.Count() ensures c.ObjOk(k) && c.ObjIdle(k) && c.ObjResolves(k) {
      CollectedObjOk(g, v, c, k);
      CollectedResolves(g, v, c, k);
    }
    forall i, j | 0 <= i < j < c.Count() ensures c.Separate(i, j) {
      CollectedSeparate(g, v, c, i, j);
    }
    forall k, r | |c.objs| <= k < c.Count() && 0 <= r < |c.regions| ensures c.OutsideRegions(k, r) {
      CollectedOutside(g, v, c, k, r);
    }
    forall i | 0 <= i < |c.roots| ensures c.RootOk(i) {
      CollectedRootOk(g, v, c, i);
    }
    forall i, k | 0 <= i < |c.roots| && 0 <= k < c.Count() ensures c.RootOutsideObj(i, k) {
      CollectedRootOutside(g, v, c, i, k);
    }
  }
}
