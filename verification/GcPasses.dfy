/** The states of the two passes of the compactor, and what each step does to them. */
module GcPasses {
  import opened GcMemory
  import opened GcHeap
  import opened GcThreads
  import opened GcGraph

  // ----- which slots are threaded when -----------------------------------------------------

  /** Threaded once the forward pass has visited the first k nodes: the visited slots whose
      target is still to come, or lies at or before the slot's own object. */
  ghost function ForwardThreaded(g: Graph, k: int): set<Addr> {
    set s | s in g.tgt && s in g.src && g.src[s] < k && (k <= g.tgt[s] || g.tgt[s] <= g.src[s])
  }

  ghost function ForwardDone(g: Graph, k: int): set<Addr> {
    set s | s in g.tgt && s in g.src && g.src[s] < g.tgt[s] < k
  }

  /** The same while node k is visited, when its slots below address b have been threaded. */
  ghost function VisitThreaded(g: Graph, k: int, b: Addr): set<Addr> {
    set s | s in g.tgt && s in g.src &&
      ((g.src[s] < k && (k < g.tgt[s] || g.tgt[s] <= g.src[s])) || (g.src[s] == k && s < b))
  }

  /** Threaded once the backward pass has visited the first k nodes. */
  ghost function BackwardThreaded(g: Graph, k: int): set<Addr> {
    set s | s in g.tgt && s in g.src && k <= g.tgt[s] <= g.src[s]
  }

  ghost function BackwardDone(g: Graph, k: int): set<Addr> {
    set s | s in g.tgt && s in g.src && !(k <= g.tgt[s] <= g.src[s])
  }

  // ----- words the passes leave alone ------------------------------------------------------

  /** Every word of node k but its data word and its slots is as it was. */
  ghost predicate KeptNode(g: Graph, m0: Memory, m: Memory, k: int)
    requires 0 <= k < |g.node| && |g.size| == |g.node|
  {
    forall a :: g.node[k] < a < g.node[k] + g.size[k] && a !in g.tgt ==> At(m, a) == At(m0, a)
  }

  ghost predicate KeptRoot(g: Graph, v: View, m: Memory, r: int)
    requires 0 <= r < |v.roots|
  {
    v.roots[r].at !in g.tgt ==> At(m, v.roots[r].at) == At(v.mem, v.roots[r].at)
  }

  // Dead runs.

  /** The end of the dead run from h on, as far as the pass has come. */
  ghost function RunEnd(v: View, h: int, w: int): (e: int)
    requires 0 <= h <= w <= |v.objs|
    ensures h <= e <= w
    ensures forall i :: h <= i < e ==> !Live(v, i)
    ensures e < w ==> Live(v, e)
    decreases w - h
  {
    if h == w || Live(v, h) then h else RunEnd(v, h + 1, w)
  }

  ghost predicate StartsRun(v: View, h: int)
    requires 0 <= h < |v.objs|
  {
    !Live(v, h) && (h == 0 || Live(v, h - 1))
  }

  /** The free block at object h sends the walker to object e, or off the heap. */
  ghost predicate JumpRecord(v: View, m: Memory, h: int, e: int)
    requires 0 <= h < |v.objs| && 0 <= e <= |v.objs|
  {
    var o := v.objs[h].at;
    && At(m, o + BITS) == Bits(FreeRun, false)
    && At(m, o + DATA).Ptr?
    && if e < |v.objs| then At(m, o + DATA) == Ptr(v.objs[e].at) && At(m, o + EXTRA) == Num(v.objs[e].region)
       else At(m, o + EXTRA) == Num(-1)
  }

  ghost predicate HeaderKept(v: View, m: Memory, h: int)
    requires 0 <= h < v.Count()
  {
    var o := v.ObjAt(h).at;
    At(m, o + DATA) == At(v.mem, o + DATA) && At(m, o + BITS) == At(v.mem, o + BITS)
      && At(m, o + EXTRA) == At(v.mem, o + EXTRA)
  }

  /** Once objects below w have been seen, exactly the first object of each dead run of two or
      more is a free block, and it leads to the end of its run. */
  ghost predicate DeadOk(v: View, m: Memory, h: int, w: int)
    requires 0 <= h < |v.objs| && 0 <= w <= |v.objs|
  {
    !Live(v, h) ==>
      if h < w && StartsRun(v, h) && h + 2 <= RunEnd(v, h, w) then JumpRecord(v, m, h, RunEnd(v, h, w))
      else HeaderKept(v, m, h)
  }

  ghost predicate AllKept(g: Graph, v: View, m: Memory, lo: int)
    requires |g.size| == |g.node|
  {
    && (forall k {:trigger KeptNode(g, v.mem, m, k)} :: 0 <= k < |g.node| && lo <= k ==> KeptNode(g, v.mem, m, k))
    && (forall r {:trigger KeptRoot(g, v, m, r)} :: 0 <= r < |v.roots| ==> KeptRoot(g, v, m, r))
    && (forall n {:trigger HeaderKept(v, m, n)} :: |v.objs| <= n < v.Count() && !Live(v, n) ==> HeaderKept(v, m, n))
  }

  ghost predicate AllDeadOk(v: View, m: Memory, from: int, w: int)
    requires 0 <= w <= |v.objs|
  {
    && (forall h {:trigger DeadOk(v, m, h, w)} :: 0 <= h < |v.objs| && from <= h ==> DeadOk(v, m, h, w))
    && FloorKept(v, m)
  }

  /** Where the walk over a heap without objects is left: at the data of the last region. */
  function Floor(regions: seq<Region>): Addr {
    if |regions| > 0 then regions[|regions| - 1].data else NULL
  }

  /** The words of a header there. */
  ghost predicate OnFloor(v: View, a: Addr) {
    |v.objs| == 0 && 0 < |v.regions| && Floor(v.regions) <= a < Floor(v.regions) + FREE_BLOCK
      <= v.regions[|v.regions| - 1].end
  }

  ghost predicate FloorKept(v: View, m: Memory) {
    forall a {:trigger OnFloor(v, a)} :: OnFloor(v, a) ==> At(m, a) == At(v.mem, a)
  }

  /** The forward pass has visited the first k nodes. */
  ghost predicate Forward(g: Graph, v: View, m: Memory, k: int, chains: seq<seq<Addr>>) {
    && Threads(g, m, 0, chains, ForwardThreaded(g, k), ForwardDone(g, k))
    && AllKept(g, v, m, 0)
  }

  /** The forward pass is at node k and has threaded its slots below b. */
  ghost predicate Visiting(g: Graph, v: View, m: Memory, k: int, b: Addr, chains: seq<seq<Addr>>) {
    && Threads(g, m, 0, chains, VisitThreaded(g, k, b), ForwardDone(g, k + 1))
    && AllKept(g, v, m, 0)
  }

  // ----- writes to headers and slots -------------------------------------------------------

  /** m' differs from m in data words of nodes and in slots only. */
  ghost predicate GraphWrites(g: Graph, m: Memory, m': Memory) {
    |m'| == |m| && forall a :: a !in g.tgt && a !in g.node ==> At(m', a) == At(m, a)
  }

  lemma InsideIsNoNode(g: Graph, bound: int, k: int, a: Addr)
    requires g.Valid(bound) && 0 <= k < |g.node| && g.node[k] < a < g.node[k] + g.size[k]
    ensures a !in g.node
  {
    forall j | 0 <= j < |g.node| ensures g.node[j] != a {
      assert j < k ==> Apart(g.node[j], g.size[j], g.node[k], g.size[k]);
      assert k < j ==> Apart(g.node[k], g.size[k], g.node[j], g.size[j]);
    }
  }

  lemma GraphWritesKeep(g: Graph, v: View, m: Memory, m': Memory, lo: int)
    requires Marked(v) && Describes(g, v) && g.Valid(|m|)
    requires AllKept(g, v, m, lo) && GraphWrites(g, m, m')
    ensures AllKept(g, v, m', lo)
  {
    forall k | 0 <= k < |g.node| && lo <= k ensures KeptNode(g, v.mem, m', k) {
      assert KeptNode(g, v.mem, m, k);
      forall a | g.node[k] < a < g.node[k] + g.size[k] && a !in g.tgt ensures At(m', a) == At(v.mem, a) {
        InsideIsNoNode(g, |m|, k, a);
      }
    }
    forall r | 0 <= r < |v.roots| ensures KeptRoot(g, v, m', r) {
      assert KeptRoot(g, v, m, r);
      forall k | 0 <= k < |g.node| ensures g.node[k] != v.roots[r].at {
        RootOutsideNodes(g, v, r, k);
        NodesInBounds(g, v, k, k);
      }
    }
    forall n | |v.objs| <= n < v.Count() && !Live(v, n) ensures HeaderKept(v, m', n) {
      assert HeaderKept(v, m, n);
      DeadHeaderIsOutside(g, v, n);
    }
  }

  /** No word of a dead object belongs to the graph. */
  lemma DeadIsOutside(g: Graph, v: View, h: int, a: Addr)
    requires Marked(v) && Describes(g, v)
    requires 0 <= h < v.Count() && !Live(v, h) && WithinObj(a, v.ObjAt(h))
    ensures a !in g.tgt && a !in g.node
  {
    forall k | 0 <= k < |g.node| ensures !(g.node[k] <= a < g.node[k] + g.size[k])
      && g.node[k] < g.node[k] + g.size[k] {
      NodeAt(g, v, k);
      NodesInBounds(g, v, k, k);
      NodesApart(v, Visited(v, k), h);
    }
    forall s | s in g.tgt ensures s != a {
      SlotInGraph(g, v, s);
      assert SlotIs(g, v, s);
      var i, r := SlotCases(v, s);
      if r >= 0 {
        assert v.RootOutsideObj(r, h);
      } else {
        ObjectSlot(v, i, s);
        NodesApart(v, i, h);
      }
    }
  }

  lemma DeadHeaderIsOutside(g: Graph, v: View, h: int)
    requires Marked(v) && Describes(g, v) && 0 <= h < v.Count() && !Live(v, h)
    ensures var o := v.ObjAt(h).at;
      && o !in g.tgt && o !in g.node && o + BITS !in g.tgt && o + BITS !in g.node && o + EXTRA !in g.tgt
      && o + EXTRA !in g.node
  {
    assert v.ObjOk(h);
    var o := v.ObjAt(h).at;
    DeadIsOutside(g, v, h, o + DATA);
    DeadIsOutside(g, v, h, o + BITS);
    DeadIsOutside(g, v, h, o + EXTRA);
  }

  lemma FloorIsOutside(g: Graph, v: View, a: Addr)
    requires Marked(v) && Describes(g, v) && OnFloor(v, a)
    ensures a !in g.tgt && a !in g.node
  {
    var last := |v.regions| - 1;
    forall k | 0 <= k < |g.node| ensures g.node[k] != a {
      NodeAt(g, v, k);
      NodesInBounds(g, v, k, k);
      assert v.OutsideRegions(Visited(v, k), last);
    }
    forall s | s in g.tgt ensures s != a {
      SlotInGraph(g, v, s);
      assert SlotIs(g, v, s);
      var i, r := SlotCases(v, s);
      if r >= 0 {
        assert v.RootOutsideRegion(r, last);
      } else {
        ObjectSlot(v, i, s);
        assert v.OutsideRegions(i, last);
      }
    }
  }

  lemma GraphWritesKeepFloor(g: Graph, v: View, m: Memory, m': Memory)
    requires Marked(v) && Describes(g, v) && FloorKept(v, m) && GraphWrites(g, m, m')
    ensures FloorKept(v, m')
  {
    forall a | OnFloor(v, a) ensures At(m', a) == At(v.mem, a) {
      FloorIsOutside(g, v, a);
    }
  }

  lemma GraphWritesKeepDead(g: Graph, v: View, m: Memory, m': Memory, from: int, w: int)
    requires Marked(v) && Describes(g, v) && 0 <= w <= |v.objs|
    requires AllDeadOk(v, m, from, w) && GraphWrites(g, m, m')
    ensures AllDeadOk(v, m', from, w)
  {
    GraphWritesKeepFloor(g, v, m, m');
    forall h | 0 <= h < |v.objs| && from <= h ensures DeadOk(v, m', h, w) {
      assert DeadOk(v, m, h, w);
      if !Live(v, h) {
        DeadHeaderIsOutside(g, v, h);
      }
    }
  }
}
