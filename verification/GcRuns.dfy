/** Dead runs during the forward pass: the jump records grow with the run. */
module GcRuns {
  import opened GcMemory
  import opened GcHeap
  import opened GcThreads
  import opened GcGraph
  import opened GcPasses

  lemma {:induction false} RunEndStep(v: View, h: int, w: int)
    requires 0 <= h <= w < |v.objs|
    ensures RunEnd(v, h, w + 1) == if RunEnd(v, h, w) == w && !Live(v, w) then w + 1 else RunEnd(v, h, w)
    decreases w - h
  {
    if h < w && !Live(v, h) {
      RunEndStep(v, h + 1, w);
    }
  }

  /** What the forward pass remembers in `prev`: the first object of the dead run it is in. */
  ghost predicate PrevOk(v: View, prev: Addr, head: int, w: int)
    requires 0 <= w <= |v.objs|
  {
    if prev == NULL then w == 0 || Live(v, w - 1)
    else 0 <= head < w && prev == v.objs[head].at && StartsRun(v, head) && RunEnd(v, head, w) == w
  }

  lemma OnlyOneOpenRun(v: View, w: int, h: int, head: int)
    requires 0 <= w <= |v.objs| && 0 <= h < w && 0 <= head < w
    requires StartsRun(v, h) && StartsRun(v, head) && RunEnd(v, h, w) == w && RunEnd(v, head, w) == w
    ensures h == head
  {
  }

  lemma LiveProgress(v: View, m: Memory, w: int)
    requires 0 <= w < |v.objs| && Live(v, w) && AllDeadOk(v, m, 0, w)
    ensures AllDeadOk(v, m, 0, w + 1)
  {
    var next := w + 1;
    forall h | 0 <= h < |v.objs| ensures DeadOk(v, m, h, next) {
      assert DeadOk(v, m, h, w);
      if h < w {
        RunEndStep(v, h, w);
      }
    }
  }

  /** A run of one gets no record. */
  lemma RunStarts(v: View, m: Memory, w: int)
    requires 0 <= w < |v.objs| && !Live(v, w) && AllDeadOk(v, m, 0, w)
    requires v.Layout() && PrevOk(v, NULL, 0, w)
    ensures AllDeadOk(v, m, 0, w + 1) && v.objs[w].at != NULL && PrevOk(v, v.objs[w].at, w, w + 1)
  {
    assert v.ObjOk(w);
    RunEndStep(v, w, w);
    var next := w + 1;
    forall h | 0 <= h < |v.objs| ensures DeadOk(v, m, h, next) {
      assert DeadOk(v, m, h, w);
      if h < w {
        RunEndStep(v, h, w);
      }
    }
  }

  function Recorded(m: Memory, prev: Addr, region: int, pos: Addr): Memory
    requires 0 <= prev && prev + 2 < |m| && m[prev + BITS].Bits?
  {
    m[prev + BITS := Bits(FreeRun, m[prev + BITS].marked)][prev + EXTRA := Num(region)][prev + DATA := Ptr(pos)]
  }

  lemma RunGrows(v: View, m: Memory, w: int, prev: Addr, head: int, region: int, pos: Addr)
    requires v.Layout() && |m| == |v.mem|
    requires 0 <= w < |v.objs| && !Live(v, w) && AllDeadOk(v, m, 0, w)
    requires prev != NULL && PrevOk(v, prev, head, w)
    requires if w + 1 < |v.objs| then region == v.objs[w + 1].region && pos == v.objs[w + 1].at else region == -1
    ensures 0 <= prev && prev + 2 < |m| && m[prev + BITS].Bits? && !m[prev + BITS].marked
    ensures AllDeadOk(v, Recorded(m, prev, region, pos), 0, w + 1) && PrevOk(v, prev, head, w + 1)
    ensures forall a :: !WithinObj(a, v.objs[head]) ==> At(Recorded(m, prev, region, pos), a) == At(m, a)
  {
    RunGrowsAt(v, m, w, prev, head, region, pos);
    var m' := Recorded(m, prev, region, pos);
    var next := w + 1;
    hide DeadOk, StartsRun, RunEnd, Recorded, Live;
    forall h | 0 <= h < |v.objs| ensures DeadOk(v, m', h, next) {
      if h != head {
        OtherRunsKept(v, m, m', w, h, head);
      }
    }
  }

  /** The record of the run itself. */
  lemma RunGrowsAt(v: View, m: Memory, w: int, prev: Addr, head: int, region: int, pos: Addr)
    requires v.Layout() && |m| == |v.mem|
    requires 0 <= w < |v.objs| && !Live(v, w) && AllDeadOk(v, m, 0, w)
    requires prev != NULL && PrevOk(v, prev, head, w)
    requires if w + 1 < |v.objs| then region == v.objs[w + 1].region && pos == v.objs[w + 1].at else region == -1
    ensures 0 <= prev && prev + 2 < |m| && m[prev + BITS].Bits? && !m[prev + BITS].marked
    ensures 0 <= head < w && StartsRun(v, head) && RunEnd(v, head, w) == w
    ensures DeadOk(v, Recorded(m, prev, region, pos), head, w + 1) && PrevOk(v, prev, head, w + 1)
    ensures forall a :: !WithinObj(a, v.objs[head]) ==> At(Recorded(m, prev, region, pos), a) == At(m, a)
  {
    assert v.ObjOk(head) && DeadOk(v, m, head, w);
    RunEndStep(v, head, w);
  }

  lemma OtherRunsKept(v: View, m: Memory, m': Memory, w: int, h: int, head: int)
    requires v.Layout()
    requires 0 <= w < |v.objs| && AllDeadOk(v, m, 0, w) && 0 <= h < |v.objs| && 0 <= head < w && h != head
    requires StartsRun(v, head) && RunEnd(v, head, w) == w
    requires forall a :: !WithinObj(a, v.objs[head]) ==> At(m', a) == At(m, a)
    ensures DeadOk(v, m', h, w + 1)
  {
    assert DeadOk(v, m, h, w) && v.ObjOk(h);
    NodesApart(v, h, head);
    if h < w {
      RunEndStep(v, h, w);
      if StartsRun(v, h) && RunEnd(v, h, w) == w {
        OnlyOneOpenRun(v, w, h, head);
      }
    } else if h == w {
      RunEndStep(v, h, w);
    }
  }

  lemma ChainKept(g: Graph, m: Memory, m': Memory, k: int, c: seq<Addr>, threaded: set<Addr>)
    requires 0 <= k < |g.node| && ChainOf(g, m, k, c, threaded)
    requires At(m', g.node[k]) == At(m, g.node[k])
    requires forall s :: s in threaded ==> At(m', s) == At(m, s)
    ensures ChainOf(g, m', k, c, threaded)
  {
    ChainFrame(m, m', g.node[k], c);
  }

  /** Threads only reads the slots and headers still in play. */
  lemma ThreadsFrame(g: Graph, m: Memory, m': Memory, lo: int, chains: seq<seq<Addr>>, threaded: set<Addr>,
                     done: set<Addr>)
    requires Threads(g, m, lo, chains, threaded, done) && |m'| == |m|
    requires forall s :: s in g.tgt && s in g.src && g.Present(s, lo) ==> At(m', s) == At(m, s)
    requires forall k :: 0 <= k < |g.node| && lo <= k ==> At(m', g.node[k]) == At(m, g.node[k])
    ensures Threads(g, m', lo, chains, threaded, done)
  {
    forall s | s in g.tgt ensures g.ValidSlot(s, |m'|) && SlotOk(g, m', lo, s, chains, threaded, done) {
      assert g.ValidSlot(s, |m|) && SlotOk(g, m, lo, s, chains, threaded, done);
    }
    forall s | s in threaded ensures At(m', s) == At(m, s) {
      assert SlotOk(g, m, lo, s, chains, threaded, done);
    }
    forall k | 0 <= k < |g.node| && lo <= k ensures ChainOf(g, m', k, chains[k], threaded) {
      assert ChainOf(g, m, k, chains[k], threaded);
      ChainKept(g, m, m', k, chains[k], threaded);
    }
  }

  /** Writing to a dead object changes nothing for the live ones. */
  lemma DeadWritesKeep(g: Graph, v: View, m: Memory, m': Memory, k: int, chains: seq<seq<Addr>>, h: int)
    requires Marked(v) && Describes(g, v) && |m'| == |m| == |v.mem|
    requires 0 <= h < |v.objs| && !Live(v, h)
    requires forall a :: !WithinObj(a, v.objs[h]) ==> At(m', a) == At(m, a)
    requires Forward(g, v, m, k, chains)
    ensures Forward(g, v, m', k, chains)
  {
    forall s | s in g.tgt ensures At(m', s) == At(m, s) {
      if WithinObj(s, v.objs[h]) {
        DeadIsOutside(g, v, h, s);
      }
    }
    forall j | 0 <= j < |g.node| ensures At(m', g.node[j]) == At(m, g.node[j]) {
      if WithinObj(g.node[j], v.objs[h]) {
        DeadIsOutside(g, v, h, g.node[j]);
      }
    }
    ThreadsFrame(g, m, m', 0, chains, ForwardThreaded(g, k), ForwardDone(g, k));
    forall j | 0 <= j < |g.node| && 0 <= j ensures KeptNode(g, v.mem, m', j) {
      assert KeptNode(g, v.mem, m, j);
      NodeAt(g, v, j);
      NodesApart(v, Visited(v, j), h);
    }
    forall r | 0 <= r < |v.roots| ensures KeptRoot(g, v, m', r) {
      assert KeptRoot(g, v, m, r) && v.RootOutsideObj(r, h);
    }
    forall n | |v.objs| <= n < v.Count() && !Live(v, n) ensures HeaderKept(v, m', n) {
      assert HeaderKept(v, m, n) && v.ObjOk(n);
      NodesApart(v, n, h);
    }
  }
}
