/** A whole collection: marking, the two passes, and what they preserve. */
module GcCollect {
  import opened GcMemory
  import opened GcHeap
  import opened GcState
  import opened GcReach
  import opened GcMark
  import opened GcThreads
  import opened GcGraph
  import opened GcSlide
  import opened GcPasses
  import opened GcWalk
  import opened GcMove
  import opened GcCompact
  import opened GcBackward
  import opened GcSurvive

  // ----- from marking to compaction --------------------------------------------------------

  ghost function MarkedView(v: View): View {
    v.(mem := Painted(v.mem, Reach(v)))
  }

  lemma MarkingIsDone(v: View)
    requires v.Valid()
    ensures Marking(v.mem, v.Addresses(), Reach(v), Painted(v.mem, Reach(v)), Reach(v), [])
  {
    ValidIsWorld(v);
  }

  lemma ObjectAddress(v: View, k: int)
    requires 0 <= k < v.Count()
    ensures v.ObjAt(k).at in v.Addresses()
  {
  }

  /** An object reads as before marking, but for its mark bit. */
  lemma PaintedObject(v: View, k: int)
    requires v.Valid() && 0 <= k < v.Count()
    ensures var p := MarkedView(v); var o := v.ObjAt(k).at;
      && p.Count() == v.Count() && p.ObjAt(k) == v.ObjAt(k) && HeaderOk(p.mem, p.ObjAt(k))
      && At(p.mem, o) == Ptr(NULL) && (Live(p, k) <==> o in Reach(v))
      && KindAt(p.mem, o) == KindAt(v.mem, o) && SizeAt(p.mem, o) == SizeAt(v.mem, o)
      && (forall b {:trigger At(p.mem, b)} :: o + 2 <= b < o + v.ObjAt(k).size ==> At(p.mem, b) == At(v.mem, b))
  {
    MarkingIsDone(v);
    ObjectAddress(v, k);
    assert v.ObjOk(k) && v.ObjIdle(k);
    MarkingKeepsShape(v.mem, v.Addresses(), Reach(v), Painted(v.mem, Reach(v)), Reach(v), [], v.ObjAt(k).at);
  }

  lemma PaintedSlots(v: View, k: int, f: int)
    requires v.Valid() && 0 <= k < v.Count()
    ensures var p := MarkedView(v); var o := v.ObjAt(k).at;
      && IsSlot(p.mem, o, f) == IsSlot(v.mem, o, f)
      && (IsSlot(v.mem, o, f) ==>
           SlotTarget(p.mem, o, f) == SlotTarget(v.mem, o, f) && At(p.mem, o + f) == At(v.mem, o + f))
  {
    PaintedObject(v, k);
    assert v.ObjOk(k);
  }

  lemma PaintedAddresses(v: View)
    requires v.Valid()
    ensures MarkedView(v).Addresses() == v.Addresses()
  {
    var p := MarkedView(v);
    forall k | 0 <= k < v.Count() ensures p.ObjAt(k) == v.ObjAt(k) {
      PaintedObject(v, k);
    }
    forall a | a in v.Addresses() ensures a in p.Addresses() {
      var k :| 0 <= k < v.Count() && v.ObjAt(k).at == a;
      assert p.ObjAt(k).at == a;
    }
    forall a | a in p.Addresses() ensures a in v.Addresses() {
      var k :| 0 <= k < p.Count() && p.ObjAt(k).at == a;
      assert v.ObjAt(k).at == a;
    }
  }

  lemma PaintedResolves(v: View, s: Sort, w: Word)
    requires v.Valid() && v.Resolves(s, w)
    ensures MarkedView(v).Resolves(s, w)
  {
    PaintedAddresses(v);
    if IsRef(s, w) {
      var k :| 0 <= k < v.Count() && v.ObjAt(k).at == Target(s, w);
      PaintedObject(v, k);
    }
  }

  lemma PaintedRoot(v: View, i: int)
    requires v.Valid() && 0 <= i < |v.roots|
    ensures At(MarkedView(v).mem, v.roots[i].at) == At(v.mem, v.roots[i].at)
    ensures IsRef(v.roots[i].sort, At(v.mem, v.roots[i].at))
      ==> Target(v.roots[i].sort, At(v.mem, v.roots[i].at)) in Reach(v)
  {
    MarkingIsDone(v);
    RootWord(v, MarkedView(v).mem, Reach(v), i);
  }

  lemma PaintedLayout(v: View)
    requires v.Valid()
    ensures MarkedView(v).Layout()
  {
    var p := MarkedView(v);
    forall k | 0 <= k < p.Count() ensures p.ObjOk(k) && p.ObjResolves(k) {
      PaintedObjResolves(v, k);
    }
    PaintedRoots(v);
    forall i, j | 0 <= i < j < p.Count() ensures p.Separate(i, j) {
      PaintedObject(v, i);
      PaintedObject(v, j);
      assert v.Separate(i, j);
    }
    forall k, r | |p.objs| <= k < p.Count() && 0 <= r < |p.regions| ensures p.OutsideRegions(k, r) {
      PaintedObject(v, k);
      assert v.OutsideRegions(k, r);
    }
  }

  lemma PaintedObjResolves(v: View, k: int)
    requires v.Valid() && 0 <= k < v.Count()
    ensures MarkedView(v).ObjOk(k) && MarkedView(v).ObjResolves(k)
  {
    hide View.Resolves, Painted, Reach;
    var p := MarkedView(v);
    PaintedObject(v, k);
    var o := v.ObjAt(k).at;
    forall f | IsSlot(p.mem, o, f) ensures p.Resolves(SortOf(KindAt(p.mem, o), f), At(p.mem, o + f)) {
      PaintedSlots(v, k, f);
      assert v.ObjResolves(k);
      PaintedResolves(v, SortOf(KindAt(v.mem, o), f), At(v.mem, o + f));
    }
  }

  lemma PaintedRoots(v: View)
    requires v.Valid()
    ensures var p := MarkedView(v);
      && (forall i :: 0 <= i < |p.roots| ==> p.RootOk(i))
      && (forall i, j :: 0 <= i < j < |p.roots| ==> p.RootsDistinct(i, j))
      && (forall i, k :: 0 <= i < |p.roots| && 0 <= k < p.Count() ==> p.RootOutsideObj(i, k))
      && (forall i, r :: 0 <= i < |p.roots| && 0 <= r < |p.regions| ==> p.RootOutsideRegion(i, r))
  {
    hide View.Resolves, Painted, Reach;
    var p := MarkedView(v);
    forall i | 0 <= i < |p.roots| ensures p.RootOk(i) {
      PaintedRoot(v, i);
      assert v.RootOk(i);
      PaintedResolves(v, v.roots[i].sort, At(v.mem, v.roots[i].at));
    }
    forall i, j | 0 <= i < j < |p.roots| ensures p.RootsDistinct(i, j) {
      assert v.RootsDistinct(i, j);
    }
    forall i, k | 0 <= i < |p.roots| && 0 <= k < p.Count() ensures p.RootOutsideObj(i, k) {
      PaintedObject(v, k);
      assert v.RootOutsideObj(i, k);
    }
    forall i, r | 0 <= i < |p.roots| && 0 <= r < |p.regions| ensures p.RootOutsideRegion(i, r) {
      assert v.RootOutsideRegion(i, r);
    }
  }

  lemma ReachableIsLive(v: View, a: Addr)
    requires v.Valid() && a in Reach(v)
    ensures LiveTarget(MarkedView(v), a)
  {
    PaintedLayout(v);
    var p := MarkedView(v);
    var k :| 0 <= k < v.Count() && v.ObjAt(k).at == a;
    PaintedObject(v, k);
    IndexIsUnique(p, k);
  }

  lemma SlotIsLive(v: View, i: int, s: Addr)
    requires v.Valid() && 0 <= i < v.Count()
    requires MarkedView(v).Count() == v.Count() && LiveSlotIn(MarkedView(v), i, s)
    ensures var p := MarkedView(v); LiveTarget(p, SlotTarget(p.mem, p.ObjAt(i).at, s - p.ObjAt(i).at))
  {
    var a := v.ObjAt(i).at;
    var f := s - a;
    PaintedObject(v, i);
    PaintedSlots(v, i, f);
    var t := SlotTarget(v.mem, a, f);
    assert Edge(v.mem, a, t);
    EdgeLeadsToObject(v, a, t);
    EdgeIsReachable(v, a, t);
    ReachableIsLive(v, t);
  }

  lemma RootIsLive(v: View, i: int, s: Addr)
    requires v.Valid() && 0 <= i < |v.roots| && RootSlot(MarkedView(v), i, s)
    ensures LiveTarget(MarkedView(v), Target(v.roots[i].sort, At(MarkedView(v).mem, s)))
  {
    PaintedRoot(v, i);
    ReachableIsLive(v, Target(v.roots[i].sort, At(v.mem, s)));
  }

  lemma SymbolIsLive(v: View, i: int)
    requires v.Valid() && |v.objs| + |v.pinned| <= i < v.Count()
    ensures MarkedView(v).Count() == v.Count() && Live(MarkedView(v), i)
  {
    PaintedObject(v, i);
    RootInReach(v, v.ObjAt(i).at);
  }

  /** Marking leaves what compaction starts from. */
  lemma MarkingEstablishesMarked(v: View)
    requires v.Valid()
    ensures Marked(MarkedView(v))
  {
    hide View.Layout, View.Valid, Painted, LiveTarget;
    PaintedLayout(v);
    var p := MarkedView(v);
    forall i | 0 <= i < p.Count() ensures EmptyList(p, i) {
      PaintedObject(v, i);
    }
    forall i, s | 0 <= i < p.Count() && LiveSlotIn(p, i, s)
      ensures LiveTarget(p, SlotTarget(p.mem, p.ObjAt(i).at, s - p.ObjAt(i).at))
    {
      SlotIsLive(v, i, s);
    }
    forall i, s | 0 <= i < |p.roots| && RootSlot(p, i, s) ensures LiveTarget(p, Target(p.roots[i].sort, At(p.mem, s))) {
      RootIsLive(v, i, s);
    }
    forall i | |p.objs| + |p.pinned| <= i < p.Count() ensures Live(p, i) {
      SymbolIsLive(v, i);
    }
  }

  // ----- what a collection preserves -------------------------------------------------------

  /** The word w' is w with the object it refers to, if any, renamed; an interior pointer keeps its
      offset. */
  ghost predicate RenamedTo(ren: map<Addr, Addr>, s: Sort, w: Word, w': Word) {
    if IsRef(s, w) then Target(s, w) in ren && w' == Ptr(ren[Target(s, w)] + (w.to - Target(s, w)))
    else w' == w
  }

  /** The object a has become the object ren[a]: same class, same size, same contents. */
  ghost predicate Copied(v: View, c: View, ren: map<Addr, Addr>, a: Addr)
    requires a in ren
  {
    && KindAt(c.mem, ren[a]) == KindAt(v.mem, a)
    && SizeAt(c.mem, ren[a]) == SizeAt(v.mem, a)
    && (forall f :: 2 <= f < SizeAt(v.mem, a) ==> FieldCopied(v, c, ren, a, f))
  }

  ghost predicate FieldCopied(v: View, c: View, ren: map<Addr, Addr>, a: Addr, f: int)
    requires a in ren
  {
    RenamedTo(ren, SortOf(KindAt(v.mem, a), f), At(v.mem, a + f), At(c.mem, ren[a] + f))
  }

  ghost predicate RootCopied(v: View, c: View, ren: map<Addr, Addr>, i: int)
    requires 0 <= i < |v.roots|
  {
    RenamedTo(ren, v.roots[i].sort, At(v.mem, v.roots[i].at), At(c.mem, v.roots[i].at))
  }

  /** a comes before b when the regions are walked. */
  ghost predicate WalkedBefore(v: View, a: Addr, b: Addr) {
    exists i, j :: 0 <= i < j < |v.objs| && v.objs[i].at == a && v.objs[j].at == b
  }

  /** The heap c is the reachable part of the heap v, slid together: ren renames the reachable
      objects of v one to one to the objects of c. */
  ghost predicate Preserved(v: View, c: View, ren: map<Addr, Addr>) {
    && ren.Keys == Reach(v)
    && (forall b :: b in c.Addresses() <==> exists a :: a in ren && ren[a] == b)
    && (forall a, b :: a in ren && b in ren && a != b ==> ren[a] != ren[b])
    && (forall a {:trigger Copied(v, c, ren, a)} :: a in ren ==> Copied(v, c, ren, a))
    && c.roots == v.roots
    && (forall i {:trigger RootCopied(v, c, ren, i)} :: 0 <= i < |v.roots| ==> RootCopied(v, c, ren, i))
    && c.symbols == v.symbols
    && (forall a :: a in v.symbols ==> a in ren && ren[a] == a)
    && (forall a :: a in v.pinned && a in ren ==> ren[a] == a)
    && (forall a :: a in c.pinned <==> a in v.pinned && a in ren)
    && (forall a, b :: a in ren && b in ren && WalkedBefore(v, a, b) ==> WalkedBefore(c, ren[a], ren[b]))
  }

  ghost predicate Collected(g: Graph, v: View, c: View) {
    v.Valid() && Compacted(g, MarkedView(v), c)
  }

  /** The node of a reachable object. */
  ghost function NodeIndex(v: View, a: Addr): int {
    var p := MarkedView(v);
    Rank(p, IndexOf(p, a))
  }

  lemma ReachableNode(g: Graph, v: View, c: View, a: Addr)
    requires Collected(g, v, c) && a in Reach(v)
    ensures var k := NodeIndex(v, a); 0 <= k < |g.node| && g.node[k] == a
  {
    ReachableIsLive(v, a);
    assert NodeIs(g, MarkedView(v), IndexOf(MarkedView(v), a));
  }

  lemma NodeIsReachable(g: Graph, v: View, c: View, k: int)
    requires Collected(g, v, c) && 0 <= k < |g.node|
    ensures g.node[k] in Reach(v) && NodeIndex(v, g.node[k]) == k
  {
    var p := MarkedView(v);
    NodeAt(g, p, k);
    var i := Visited(p, k);
    PaintedObject(v, i);
    IndexIsUnique(p, i);
  }

  ghost function Renaming(g: Graph, v: View): map<Addr, Addr> {
    map a | a in Reach(v) :: if 0 <= NodeIndex(v, a) < |g.dest| then g.dest[NodeIndex(v, a)] else a
  }

  lemma RenamingOfNode(g: Graph, v: View, c: View, k: int)
    requires Collected(g, v, c) && 0 <= k < |g.node|
    ensures g.node[k] in Renaming(g, v) && Renaming(g, v)[g.node[k]] == g.dest[k]
  {
    NodeIsReachable(g, v, c, k);
  }

  /** Marking has not changed the words of the k-th object. */
  lemma PaintedNode(g: Graph, v: View, c: View, k: int)
    requires Collected(g, v, c) && 0 <= k < |g.node|
    ensures |g.kind| == |g.node| && |g.size| == |g.node| && |g.dest| == |g.node|
    ensures KindAt(v.mem, g.node[k]) == g.kind[k] && SizeAt(v.mem, g.node[k]) == g.size[k]
    ensures forall a {:trigger At(v.mem, a)} ::
      g.node[k] + 2 <= a < g.node[k] + g.size[k] ==> At(MarkedView(v).mem, a) == At(v.mem, a)
  {
    var p := MarkedView(v);
    NodeAt(g, p, k);
    PaintedObject(v, Visited(p, k));
    CollectedHeader(g, p, c, k);
  }

  lemma FieldIsCopied(g: Graph, v: View, c: View, k: int, f: int)
    requires Collected(g, v, c) && 0 <= k < |g.node| && 2 <= f < SizeAt(v.mem, g.node[k])
    ensures g.node[k] in Renaming(g, v) && FieldCopied(v, c, Renaming(g, v), g.node[k], f)
  {
    hide Compacted, Renaming, MarkedView, Reach, View.Valid;
    RenamingOfNode(g, v, c, k);
    PaintedNode(g, v, c, k);
    CollectedField(g, MarkedView(v), c, k, f);
    WordIsRenamed(g, v, c, SortOf(g.kind[k], f), At(v.mem, g.node[k] + f), At(c.mem, g.dest[k] + f));
  }

  ghost predicate SameTarget(g: Graph, s: Sort, w: Word, w': Word)
    requires |g.dest| == |g.node| && |g.kind| == |g.node|
  {
    if IsRef(s, w) then
      && IsRef(s, w')
      && (exists t :: 0 <= t < |g.node| && g.node[t] == Target(s, w) && g.dest[t] == Target(s, w')
                     && w == Ptr(g.node[t] + Bias(g.kind[t])) && w' == Ptr(g.dest[t] + Bias(g.kind[t])))
    else w' == w
  }

  lemma WordIsRenamed(g: Graph, v: View, c: View, s: Sort, w: Word, w': Word)
    requires Collected(g, v, c) && |g.dest| == |g.node| && |g.kind| == |g.node| && SameTarget(g, s, w, w')
    ensures RenamedTo(Renaming(g, v), s, w, w')
  {
    if IsRef(s, w) {
      var t :| 0 <= t < |g.node| && g.node[t] == Target(s, w) && g.dest[t] == Target(s, w')
             && w == Ptr(g.node[t] + Bias(g.kind[t])) && w' == Ptr(g.dest[t] + Bias(g.kind[t]));
      RenamingOfNode(g, v, c, t);
    }
  }

  lemma ObjectIsCopied(g: Graph, v: View, c: View, a: Addr)
    requires Collected(g, v, c) && a in Reach(v)
    ensures a in Renaming(g, v) && Copied(v, c, Renaming(g, v), a)
  {
    var p := MarkedView(v);
    ReachableNode(g, v, c, a);
    var k := NodeIndex(v, a);
    RenamingOfNode(g, v, c, k);
    NodeAt(g, p, k);
    PaintedObject(v, Visited(p, k));
    CollectedHeader(g, p, c, k);
    forall f | 2 <= f < SizeAt(v.mem, a) ensures FieldCopied(v, c, Renaming(g, v), a, f) {
      FieldIsCopied(g, v, c, k, f);
    }
  }

  lemma RootIsCopied(g: Graph, v: View, c: View, i: int)
    requires Collected(g, v, c) && 0 <= i < |v.roots|
    ensures RootCopied(v, c, Renaming(g, v), i)
  {
    PaintedRoot(v, i);
    CollectedRoot(g, MarkedView(v), c, i);
    WordIsRenamed(g, v, c, v.roots[i].sort, At(v.mem, v.roots[i].at), At(c.mem, v.roots[i].at));
  }

  lemma RenamingIsOnto(g: Graph, v: View, c: View, b: Addr)
    requires Collected(g, v, c)
    ensures b in c.Addresses() <==> exists a :: a in Renaming(g, v) && Renaming(g, v)[a] == b
  {
    var p := MarkedView(v);
    var ren := Renaming(g, v);
    CollectedCount(g, p, c);
    if b in c.Addresses() {
      var k :| 0 <= k < c.Count() && c.ObjAt(k).at == b;
      CollectedAddress(g, p, c, k);
      RenamingOfNode(g, v, c, k);
      assert ren[g.node[k]] == b;
    }
    if a :| a in ren && ren[a] == b {
      ReachableNode(g, v, c, a);
      NewAddress(g, p, c, NodeIndex(v, a));
    }
  }

  lemma RenamingIsInjective(g: Graph, v: View, c: View, a: Addr, b: Addr)
    requires Collected(g, v, c) && a in Reach(v) && b in Reach(v)
    ensures a in Renaming(g, v) && b in Renaming(g, v) && (a != b ==> Renaming(g, v)[a] != Renaming(g, v)[b])
  {
    var p := MarkedView(v);
    ReachableNode(g, v, c, a);
    ReachableNode(g, v, c, b);
    var j, k := NodeIndex(v, a), NodeIndex(v, b);
    RenamingOfNode(g, v, c, j);
    RenamingOfNode(g, v, c, k);
    DestInBounds(g, p, j);
    DestInBounds(g, p, k);
    if j < k {
      DestsApart(g, p, j, k);
    } else if k < j {
      DestsApart(g, p, k, j);
    }
  }

  /** Objects outside the regions keep their address. */
  lemma PinnedIsKept(g: Graph, v: View, c: View, i: int)
    requires Collected(g, v, c) && |v.objs| <= i < v.Count() && v.ObjAt(i).at in Reach(v)
    ensures var a := v.ObjAt(i).at; a in Renaming(g, v) && Renaming(g, v)[a] == a
    ensures |c.objs| <= NodeIndex(v, v.ObjAt(i).at)
  {
    var p := MarkedView(v);
    var a := v.ObjAt(i).at;
    PaintedObject(v, i);
    IndexIsUnique(p, i);
    var k := Rank(p, i);
    ReachableNode(g, v, c, a);
    RenamingOfNode(g, v, c, k);
    NodeAt(g, p, k);
    RankOfLive(p, i, p.Count());
    RegionNode(g, p, k);
    PinnedNode(g, p, k, 0);
    CollectedCount(g, p, c);
  }

  lemma PinnedMember(v: View, i: int)
    requires v.Valid() && 0 <= i < |v.pinned|
    ensures Live(MarkedView(v), |v.objs| + i) <==> v.pinned[i] in Reach(v)
  {
    hide View.Valid, Live, Reach, Painted;
    PaintedObject(v, |v.objs| + i);
  }

  lemma {:induction false} LivePinnedMembers(v: View, i: int, a: Addr)
    requires v.Valid() && 0 <= i <= |v.pinned|
    ensures a in LivePinned(MarkedView(v), i) <==> a in v.pinned[..i] && a in Reach(v)
  {
    if i > 0 {
      hide View.Valid, Live, Reach, Painted, LivePinned;
      LivePinnedMembers(v, i - 1, a);
      PinnedMember(v, i - 1);
      LivePinnedStep(MarkedView(v), i - 1);
      OneMore(v.pinned, i, a);
    }
  }

  lemma OneMore(s: seq<Addr>, i: int, a: Addr)
    requires 0 < i <= |s|
    ensures a in s[..i] <==> a in s[..i - 1] || a == s[i - 1]
  {
    assert s[..i] == s[..i - 1] + [s[i - 1]];
  }

  lemma OrderIsKept(g: Graph, v: View, c: View, a: Addr, b: Addr)
    requires Collected(g, v, c) && a in Reach(v) && b in Reach(v) && WalkedBefore(v, a, b)
    ensures a in Renaming(g, v) && b in Renaming(g, v) && WalkedBefore(c, Renaming(g, v)[a], Renaming(g, v)[b])
  {
    var p := MarkedView(v);
    var i, j :| 0 <= i < j < |v.objs| && v.objs[i].at == a && v.objs[j].at == b;
    ReachableNode(g, v, c, a);
    ReachableNode(g, v, c, b);
    PaintedObject(v, i);
    PaintedObject(v, j);
    IndexIsUnique(p, i);
    IndexIsUnique(p, j);
    AlivePrefix(p, i + 1, j);
    RankOfLive(p, i, |p.objs|);
    RankOfLive(p, j, |p.objs|);
    var k, l := Rank(p, i), Rank(p, j);
    assert k < l by {
      RankOfLive(p, i, j);
    }
    CollectedAddress(g, p, c, k);
    CollectedAddress(g, p, c, l);
    RenamingOfNode(g, v, c, k);
    RenamingOfNode(g, v, c, l);
    CollectedCount(g, p, c);
    assert c.objs[k].at == g.dest[k] && c.objs[l].at == g.dest[l];
  }

  lemma SymbolIsKept(g: Graph, v: View, c: View, a: Addr)
    requires Collected(g, v, c) && a in v.symbols
    ensures a in Renaming(g, v) && Renaming(g, v)[a] == a
  {
    hide View.Valid, Compacted, Renaming, Reach;
    var i :| 0 <= i < |v.symbols| && v.symbols[i] == a;
    assert v.ObjAt(|v.objs| + |v.pinned| + i).at == a;
    RootInReach(v, a);
    PinnedIsKept(g, v, c, |v.objs| + |v.pinned| + i);
  }

  lemma PinnedIsInPlace(g: Graph, v: View, c: View, a: Addr)
    requires Collected(g, v, c) && a in v.pinned && a in Reach(v)
    ensures a in Renaming(g, v) && Renaming(g, v)[a] == a
  {
    hide Reach, Compacted, MarkedView, Renaming;
    var i :| 0 <= i < |v.pinned| && v.pinned[i] == a;
    assert v.ObjAt(|v.objs| + i).at == a;
    PinnedIsKept(g, v, c, |v.objs| + i);
  }

  lemma PinnedList(g: Graph, v: View, c: View, a: Addr)
    requires Collected(g, v, c)
    ensures a in c.pinned <==> a in v.pinned && a in Reach(v)
  {
    LivePinnedMembers(v, |v.pinned|, a);
    assert v.pinned[..|v.pinned|] == v.pinned;
  }

  lemma RenamingKeys(g: Graph, v: View)
    ensures Renaming(g, v).Keys == Reach(v)
  {
  }

  lemma RootsAndSymbolsStay(g: Graph, v: View, c: View)
    requires Collected(g, v, c)
    ensures c.roots == v.roots && c.symbols == v.symbols
  {
  }

  /** The reachable part of the heap is unchanged up to renaming. */
  lemma CollectionPreserves(g: Graph, v: View, c: View)
    requires Collected(g, v, c)
    ensures Preserved(v, c, Renaming(g, v))
  {
    hide Collected, Renaming, Copied, RootCopied, WalkedBefore, View.Addresses, Reach;
    var ren := Renaming(g, v);
    RenamingKeys(g, v);
    RootsAndSymbolsStay(g, v, c);
    forall b ensures b in c.Addresses() <==> exists a :: a in ren && ren[a] == b {
      RenamingIsOnto(g, v, c, b);
    }
    forall a, b | a in ren && b in ren && a != b ensures ren[a] != ren[b] {
      RenamingIsInjective(g, v, c, a, b);
    }
    forall a | a in ren ensures Copied(v, c, ren, a) {
      ObjectIsCopied(g, v, c, a);
    }
    forall i | 0 <= i < |v.roots| ensures RootCopied(v, c, ren, i) {
      RootIsCopied(g, v, c, i);
    }
    forall a | a in v.symbols ensures a in ren && ren[a] == a {
      SymbolIsKept(g, v, c, a);
    }
    forall a | a in v.pinned && a in ren ensures ren[a] == a {
      PinnedIsInPlace(g, v, c, a);
    }
    forall a ensures a in c.pinned <==> a in v.pinned && a in ren {
      PinnedList(g, v, c, a);
    }
    forall a, b | a in ren && b in ren && WalkedBefore(v, a, b) ensures WalkedBefore(c, ren[a], ren[b]) {
      OrderIsKept(g, v, c, a, b);
    }
  }

  lemma CollectionIsValid(g: Graph, v: View, c: View)
    requires Collected(g, v, c)
    ensures c.Valid()
  {
    CompactedIsValid(g, MarkedView(v), c);
  }

  // ----- the collection --------------------------------------------------------------------

  lemma ReadyForBackward(g: Graph, v: View, m: Memory, chains: seq<seq<Addr>>)
    requires Marked(v) && Describes(g, v) && ForwardDown(g, v, m, |v.objs| + |v.pinned| + |v.symbols|, chains)
    ensures BackwardAt(g, v, m, 0, chains)
  {
    HandOver(g, v, m, chains);
  }

  lemma ReadyForForward(v: View) returns (p: View, g: Graph)
    requires v.Valid()
    ensures p == MarkedView(v) && p.mem == Painted(v.mem, Reach(v)) && g == GraphOf(p)
    ensures p.regions == v.regions && p.pinned == v.pinned && p.symbols == v.symbols && p.roots == v.roots
      && p.objs == v.objs
    ensures Marked(p) && Describes(g, p) && 0 < |p.regions|
  {
    p := MarkedView(v);
    MarkingEstablishesMarked(v);
    GraphDescribes(p);
    g := GraphOf(p);
  }

  lemma Done(g: Graph, v: View, p: View, c: View)
    requires v.Valid() && p == MarkedView(v) && Marked(p) && Describes(g, p)
    requires AllVisited(g, p, c.mem) && RegionsCollected(p, c.regions, c.objs) && c.pinned == LivePinned(p, |p.pinned|)
    requires c.symbols == v.symbols && c.roots == v.roots
    ensures c.Valid() && Preserved(v, c, Renaming(g, v))
  {
    assert Compacted(g, p, c);
    CollectionIsValid(g, v, c);
    CollectionPreserves(g, v, c);
  }

  /** The same part of the address space. */
  predicate SameArea(a: Region, b: Region) {
    a.data == b.data && a.end == b.end
  }

  lemma AreasStay(p: View, regions: seq<Region>, objs: seq<Obj>)
    requires RegionsCollected(p, regions, objs)
    ensures |regions| <= |p.regions| && forall r :: 0 <= r < |regions| ==> SameArea(regions[r], p.regions[r])
  {
  }

  /** compact */
  method Compact(h: Heap, ghost g: Graph, ghost p: View)
    requires h.mem == p.mem && h.regions == p.regions && h.pinned == p.pinned && h.symbols == p.symbols
      && h.roots == p.roots
    requires Marked(p) && Describes(g, p) && 0 < |p.regions| && WalkStarts(p.mem, p.regions, p.objs)
    modifies h`mem, h`regions, h`current, h`pages, h`pinned, h`objs
    ensures AllVisited(g, p, h.mem) && h.pinned == LivePinned(p, |p.pinned|)
    ensures RegionsCollected(p, h.regions, h.objs) && h.current == |h.regions| - 1
      && h.pages == PagesOf(h.regions[h.current])
  {
    hide *;
    ghost var chains := UpdateForward(h, g, p);
    ReadyForBackward(g, p, h.mem, chains);
    UpdateBackward(h, g, p, chains);
  }

  lemma PaintedFloor(v: View)
    requires v.Valid() && WalkStarts(v.mem, v.regions, v.objs)
    ensures WalkStarts(Painted(v.mem, Reach(v)), v.regions, v.objs)
  {
    if |v.objs| == 0 {
      var floor := Floor(v.regions);
      forall a | floor <= a < floor + FREE_BLOCK ensures At(Painted(v.mem, Reach(v)), a) == At(v.mem, a) {
        MarkingIsDone(v);
        forall k | 0 <= k < v.Count() ensures v.ObjAt(k).at != a - BITS {
          assert v.OutsideRegions(k, |v.regions| - 1) && v.ObjOk(k);
        }
      }
    }
  }

  /** Collector::collect.  update_backward does not look at the result of load(); see WalkStarts for
      what a heap without objects in its regions has to hold instead. */
  method Collect(h: Heap)
    requires h.View().Valid() && WalkStarts(h.mem, h.regions, h.objs)
    modifies h`mem, h`regions, h`current, h`pages, h`pinned, h`objs
    ensures h.View().Valid()
    ensures exists ren :: Preserved(old(h.View()), h.View(), ren)
    ensures h.current == |h.regions| - 1 && h.pages == PagesOf(h.regions[h.current])
    ensures |h.regions| <= |old(h.regions)|
    ensures forall r :: 0 <= r < |h.regions| ==> SameArea(h.regions[r], old(h.regions)[r])
  {
    ghost var v := h.View();
    hide View.Valid, Painted, Reach, Marked, Describes, AllVisited, RegionsCollected, Preserved, WalkStarts;
    PaintedFloor(v);
    Mark(h);
    ghost var p, g := ReadyForForward(v);
    Compact(h, g, p);
    Done(g, v, p, h.View());
    AreasStay(p, h.regions, h.objs);
  }

  /** A region has four words of its own and pages of 4096 bytes. */
  lemma PagesAre(region: Region)
    ensures PagesOf(region) == (region.end - (region.data - 4)) / (4096 / 8)
  {
  }

  /** There are objects in the regions exactly when some region is not empty. */
  lemma ObjectsInRegions(regions: seq<Region>, objs: seq<Obj>)
    requires Tiling(regions, objs)
    ensures 0 < |objs| <==> exists r :: 0 <= r < |regions| && regions[r].data != regions[r].pos
  {
    if |objs| == 0 {
      assert Leads(regions, objs, 0, regions[0].data, 0);
    } else {
      assert InRegion(regions, objs[0]);
    }
  }

  /** What update_backward does before its loop.  The first header it reads is one of an object in
      the regions if and only if some region is not empty. */
  method FirstHeader(v: View) returns (pos: Addr)
    requires v.Valid()
    ensures (exists k :: 0 <= k < |v.objs| && v.objs[k].at == pos) <==>
            (exists r :: 0 <= r < |v.regions| && v.regions[r].data != v.regions[r].pos)
    ensures |v.objs| == 0 ==> pos == Floor(v.regions)
    ensures |v.objs| > 0 ==> pos == v.objs[0].at
  {
    ObjectsInRegions(v.regions, v.objs);
    var obj := new RegionWalker();
    var _ := obj.Load(v.regions, v.objs);
    pos := obj.pos;
  }

  /** How far the backward pass gets before its first step: it is over, a free block leads it
      elsewhere, or it steps on in a region, with or without an object of the header's size to move. */
  datatype Round = Over | Led(to: Addr, region: int) | Stepping(live: bool, region: int)

  /** The first round of the backward pass up to its step.  With all regions empty it reads a header
      that is no object's; unless that ends the pass, the pass follows what the words say, or steps on
      in no region at all. */
  method FirstRound(m: Memory, regions: seq<Region>, ghost objs: seq<Obj>) returns (round: Round)
    requires Tiling(regions, objs) && HasHeader(m, if |objs| > 0 then objs[0].at else Floor(regions))
    ensures |objs| > 0 && round.Stepping? ==>
              round.region == objs[0].region && round.live == MarkedAt(m, objs[0].at)
    ensures |objs| == 0 ==>
              var a := regions[|regions| - 1].data;
              match round
              case Over => At(m, a + 1) == Bits(FreeRun, false) && At(m, a + 2) == Num(-1)
              case Led(to, region) =>
                At(m, a + 1) == Bits(FreeRun, false) && At(m, a) == Ptr(to) && At(m, a + 2) == Num(region)
                  && region != -1
              case Stepping(live, region) =>
                && region == -1 && At(m, a + 1).Bits? && live == At(m, a + 1).marked
                && (live || At(m, a + 1).kind != FreeRun)
    ensures |objs| == 0 && 0 < Floor(regions) && Floor(regions) + FREE_BLOCK <= regions[|regions| - 1].end <= |m| ==>
              (round == Over <==> WalkEnds(m, regions))
  {
    var obj := new RegionWalker();
    var _ := obj.Load(regions, objs);
    var i := obj.pos;
    assert i == if |objs| > 0 then objs[0].at else Floor(regions);
    if m[i + BITS].marked {
      round := Stepping(true, obj.region);
    } else if m[i + BITS].kind == FreeRun {
      round := if m[i + EXTRA].n == -1 then Over else Led(m[i + DATA].to, m[i + EXTRA].n);
    } else {
      round := Stepping(false, obj.region);
    }
  }

  /** The words there can be read as a header. */
  predicate HasHeader(m: Memory, a: Addr) {
    && 0 <= a && 0 <= a + DATA < |m| && 0 <= a + BITS < |m| && 0 <= a + EXTRA < |m| && m[a + BITS].Bits?
    && (m[a + BITS].kind == FreeRun ==> m[a + DATA].Ptr? && m[a + EXTRA].Num?)
  }

  // ----- consequences ----------------------------------------------------------------------

  lemma EdgeIsCopied(v: View, c: View, ren: map<Addr, Addr>, a: Addr, b: Addr)
    requires v.Valid() && c.Valid() && Preserved(v, c, ren) && a in ren && Edge(v.mem, a, b)
    ensures b in ren && Edge(c.mem, ren[a], ren[b])
  {
    var f :| IsSlot(v.mem, a, f) && SlotTarget(v.mem, a, f) == b;
    assert Copied(v, c, ren, a) && FieldCopied(v, c, ren, a, f);
    NewIsNotNull(v, c, ren, b);
    assert IsSlot(c.mem, ren[a], f) && SlotTarget(c.mem, ren[a], f) == ren[b];
  }

  lemma NewIsNotNull(v: View, c: View, ren: map<Addr, Addr>, a: Addr)
    requires c.Valid() && Preserved(v, c, ren) && a in ren
    ensures 0 < ren[a] && ren[a] in c.Addresses()
  {
    assert ren[a] in c.Addresses();
    var k :| 0 <= k < c.Count() && c.ObjAt(k).at == ren[a];
    assert c.ObjOk(k);
  }

  lemma {:induction false} PathIsCopied(v: View, c: View, ren: map<Addr, Addr>, p: seq<Addr>)
    requires v.Valid() && c.Valid() && Preserved(v, c, ren) && IsPath(v, p)
    ensures p[|p| - 1] in ren && Reachable(c, ren[p[|p| - 1]])
    decreases |p|
  {
    if |p| == 1 {
      RootInReach(v, p[0]);
      RootObjectIsCopied(v, c, ren, p[0]);
      RootIsReachable(c, ren[p[0]]);
    } else {
      var q := p[..|p| - 1];
      forall i | 0 < i < |q| ensures PathStep(v.mem, q, i) {
        assert PathStep(v.mem, p, i);
      }
      PathIsCopied(v, c, ren, q);
      assert PathStep(v.mem, p, |p| - 1);
      EdgeIsCopied(v, c, ren, q[|q| - 1], p[|p| - 1]);
      EdgeIsReachable(c, ren[q[|q| - 1]], ren[p[|p| - 1]]);
    }
  }

  lemma RootObjectIsCopied(v: View, c: View, ren: map<Addr, Addr>, a: Addr)
    requires v.Valid() && c.Valid() && Preserved(v, c, ren) && IsRootObject(v, a) && a in ren
    ensures IsRootObject(c, ren[a])
  {
    if a !in v.symbols {
      var i :| 0 <= i < |v.roots| && RootRefersTo(v, i, a);
      assert RootCopied(v, c, ren, i);
      NewIsNotNull(v, c, ren, a);
      assert RootRefersTo(c, i, ren[a]);
    }
  }

  /** No garbage is left: every object of the new heap is reachable. */
  lemma NothingElseSurvives(v: View, c: View, ren: map<Addr, Addr>)
    requires v.Valid() && c.Valid() && Preserved(v, c, ren)
    ensures Reach(c) == c.Addresses()
  {
    forall b | b in c.Addresses() ensures b in Reach(c) {
      var a :| a in ren && ren[a] == b;
      var p :| IsPath(v, p) && p[|p| - 1] == a;
      PathIsCopied(v, c, ren, p);
    }
  }

  /** What the program sees following references from an object: the word at the end of the path
      of field offsets, or nothing if the path is not one of references. */
  ghost function Lookup(m: Memory, a: Addr, path: seq<int>): Option<Addr>
    decreases |path|
  {
    if path == [] then Some(a)
    else if IsSlot(m, a, path[0]) then Lookup(m, SlotTarget(m, a, path[0]), path[1..])
    else None
  }

  datatype Option<T> = None | Some(value: T)

  /** Every access path leads to the same object as before, renamed. */
  lemma {:induction false} AccessPathsSurvive(v: View, c: View, ren: map<Addr, Addr>, a: Addr, path: seq<int>)
    requires v.Valid() && c.Valid() && Preserved(v, c, ren) && a in ren
    ensures Lookup(v.mem, a, path).Some? ==> Lookup(v.mem, a, path).value in ren
    ensures Lookup(c.mem, ren[a], path) ==
      if Lookup(v.mem, a, path).Some? then Some(ren[Lookup(v.mem, a, path).value]) else None
    decreases |path|
  {
    if path != [] {
      var f := path[0];
      assert Copied(v, c, ren, a);
      if IsSlot(v.mem, a, f) {
        assert FieldCopied(v, c, ren, a, f);
        var b := SlotTarget(v.mem, a, f);
        NewIsNotNull(v, c, ren, b);
        assert IsSlot(c.mem, ren[a], f) && SlotTarget(c.mem, ren[a], f) == ren[b];
        AccessPathsSurvive(v, c, ren, b, path[1..]);
      } else if 2 <= f < SizeAt(v.mem, a) {
        assert FieldCopied(v, c, ren, a, f);
      }
    }
  }
}
