/** thread_data, thread_children and update, and the visit of one live object by the forward pass. */
module GcForward {
  import opened GcMemory
  import opened GcHeap
  import opened GcState
  import opened GcThreads
  import opened GcGraph
  import opened GcPasses

  /** The headers of the nodes still read as they did before the pass. */
  lemma ReadHeader(g: Graph, v: View, m: Memory, lo: int, k: int)
    requires Marked(v) && Describes(g, v) && |m| == |v.mem| && AllKept(g, v, m, lo)
    requires 0 <= k < |g.node| && lo <= k
    ensures var o := g.node[k];
      && 0 < o && 3 <= g.size[k] && o + g.size[k] <= |m|
      && m[o + BITS] == Bits(g.kind[k], true) && SizeAt(m, o) == g.size[k]
      && KindAt(m, o) == g.kind[k] && KindAt(v.mem, o) == g.kind[k] && SizeAt(v.mem, o) == g.size[k]
  {
    NodeAt(g, v, k);
    NodesInBounds(g, v, k, k);
    var o := g.node[k];
    assert v.ObjOk(Visited(v, k)) && KeptNode(g, v.mem, m, k);
    forall s | s in g.tgt ensures s != o + BITS {
      SlotInGraph(g, v, s);
      if g.src[s] >= 0 {
        NodesInBounds(g, v, g.src[s], k);
      }
    }
    if !g.kind[k].Record? {
      FieldInGraph(g, v, k, EXTRA);
    }
  }

  // ----- threading -------------------------------------------------------------------------

  /** thread_data: hook the slot into the list hanging off the header of temp. */
  method ThreadData(h: Heap, node: Addr, temp: Addr)
    requires 0 <= node < |h.mem| && 0 <= temp < |h.mem|
    modifies h`mem
    ensures h.mem == old(h.mem)[node := old(h.mem)[temp]][temp := Ptr(node)]
  {
    h.mem := h.mem[node := h.mem[temp + DATA]];
    h.mem := h.mem[temp + DATA := Ptr(node)];
  }

  /** Threading a slot writes to that slot and to its target's header. */
  lemma ThreadingKeeps(g: Graph, v: View, m: Memory, chains: seq<seq<Addr>>, threaded: set<Addr>, done: set<Addr>,
                       s: Addr)
    requires Marked(v) && Describes(g, v) && AllKept(g, v, m, 0)
    requires Threads(g, m, 0, chains, threaded, done)
    requires s in g.tgt && s !in threaded && s !in done
    ensures g.ValidSlot(s, |m|)
    ensures var k := g.tgt[s]; var o := g.node[k];
      && 0 < s < |m| && 0 < o < |m| &&
      var m' := m[s := m[o]][o := Ptr(s)];
      && Threads(g, m', 0, chains[k := [s] + chains[k]], threaded + {s}, done) && AllKept(g, v, m', 0)
      && GraphWrites(g, m, m')
  {
    assert g.ValidSlot(s, |m|);
    ThreadingASlot(g, m, 0, chains, threaded, done, s);
    var k := g.tgt[s];
    var m' := m[s := m[g.node[k]]][g.node[k] := Ptr(s)];
    assert GraphWrites(g, m, m');
    GraphWritesKeep(g, v, m, m', 0);
  }

  /** An untouched word of the node being visited reads as it did. */
  lemma ReadField(g: Graph, v: View, m: Memory, k: int, f: int, chains: seq<seq<Addr>>)
    requires Marked(v) && Describes(g, v) && |m| == |v.mem| && 0 <= k < |g.node| && 2 <= f < g.size[k]
    requires Visiting(g, v, m, k, g.node[k] + f, chains)
    ensures At(m, g.node[k] + f) == At(v.mem, g.node[k] + f)
    ensures g.node[k] + f in g.tgt ==>
      g.node[k] + f !in VisitThreaded(g, k, g.node[k] + f) && g.node[k] + f !in ForwardDone(g, k + 1)
  {
    var s := g.node[k] + f;
    FieldInGraph(g, v, k, f);
    assert KeptNode(g, v.mem, m, k);
    if s in g.tgt {
      SlotInGraph(g, v, s);
      assert SlotOk(g, m, 0, s, chains, VisitThreaded(g, k, s), ForwardDone(g, k + 1));
    }
  }

  lemma NextField(g: Graph, v: View, k: int, f: int)
    requires Marked(v) && Describes(g, v) && 0 <= k < |g.node| && 2 <= f < g.size[k]
    ensures var s := g.node[k] + f;
      VisitThreaded(g, k, s + 1) == if s in g.tgt then VisitThreaded(g, k, s) + {s} else VisitThreaded(g, k, s)
  {
    FieldInGraph(g, v, k, f);
    VisitNext(g, k, g.node[k] + f);
  }

  lemma VisitNext(g: Graph, k: int, s: Addr)
    requires s in g.tgt ==> s in g.src && g.src[s] == k
    ensures VisitThreaded(g, k, s + 1) == if s in g.tgt then VisitThreaded(g, k, s) + {s} else VisitThreaded(g, k, s)
  {
  }

  lemma VisitBounds(g: Graph, v: View, k: int)
    requires Marked(v) && Describes(g, v) && 0 <= k < |g.node|
    ensures VisitThreaded(g, k, g.node[k]) == VisitThreaded(g, k, g.node[k] + 2)
    ensures VisitThreaded(g, k, g.node[k] + g.size[k]) == ForwardThreaded(g, k + 1)
  {
    forall s | s in g.tgt ensures g.ValidSlot(s, |v.mem|) {
      SlotInGraph(g, v, s);
    }
  }

  /** thread_children: threads every reference in object o. */
  method ThreadChildren(h: Heap, o: Addr, ghost g: Graph, ghost v: View, ghost k: int, ghost chains: seq<seq<Addr>>)
    returns (ghost chains': seq<seq<Addr>>)
    requires Marked(v) && Describes(g, v) && |h.mem| == |v.mem|
    requires 0 <= k < |g.node| && o == g.node[k] && Visiting(g, v, h.mem, k, o, chains)
    modifies h`mem
    ensures |h.mem| == |v.mem| && Forward(g, v, h.mem, k + 1, chains') && GraphWrites(g, old(h.mem), h.mem)
  {
    ReadHeader(g, v, h.mem, 0, k);
    VisitBounds(g, v, k);
    var kind, size := h.mem[o + BITS].kind, SizeAt(h.mem, o);
    var f := 2;
    chains' := chains;
    while f < size
      invariant 2 <= f <= size && |h.mem| == |v.mem|
      invariant Visiting(g, v, h.mem, k, o + f, chains')
      invariant GraphWrites(g, old(h.mem), h.mem)
    {
      chains' := ThreadField(h, o, f, SortOf(kind, f), g, v, k, chains');
      f := f + 1;
    }
  }

  method ThreadField(h: Heap, o: Addr, f: int, sort: Sort, ghost g: Graph, ghost v: View, ghost k: int,
                     ghost chains: seq<seq<Addr>>)
    returns (ghost chains': seq<seq<Addr>>)
    requires Marked(v) && Describes(g, v) && |h.mem| == |v.mem|
    requires 0 <= k < |g.node| && o == g.node[k] && 2 <= f < g.size[k] && sort == SortOf(g.kind[k], f)
    requires Visiting(g, v, h.mem, k, o + f, chains)
    modifies h`mem
    ensures |h.mem| == |v.mem| && Visiting(g, v, h.mem, k, o + f + 1, chains') && GraphWrites(g, old(h.mem), h.mem)
  {
    ReadHeader(g, v, h.mem, 0, k);
    ReadField(g, v, h.mem, k, f, chains);
    FieldInGraph(g, v, k, f);
    NextField(g, v, k, f);
    var w := h.mem[o + f];
    chains' := chains;
    if IsRef(sort, w) {
      ghost var s := o + f;
      ThreadingKeeps(g, v, h.mem, chains, VisitThreaded(g, k, s), ForwardDone(g, k + 1), s);
      ReadHeader(g, v, h.mem, 0, g.tgt[s]);
      ThreadData(h, o + f, Target(sort, w));
      chains' := chains[g.tgt[s] := [s] + chains[g.tgt[s]]];
    }
  }

  // ----- update ----------------------------------------------------------------------------

  /** update<second>: gives every slot in the chain of node the new address, and empties the chain;
      the second time the mark bit is cleared too. */
  method Update(h: Heap, second: bool, node: Addr, free: Addr, ghost c: seq<Addr>)
    requires 0 <= node && node + BITS < |h.mem| && h.mem[node + BITS].Bits?
    requires IsChain(h.mem, node, c) && node !in c && node + BITS !in c
    requires forall i :: 0 <= i < |c| ==> c[i] < |h.mem|
    modifies h`mem
    ensures var kind := old(h.mem)[node + BITS].kind;
      var m := if second then old(h.mem)[node + BITS := Bits(kind, false)] else old(h.mem);
      h.mem == Resolved(m, c, Ptr(free + Bias(kind)))[node := Ptr(NULL)]
  {
    ghost var kind := h.mem[node + BITS].kind;
    if second {
      h.mem := h.mem[node + BITS := Bits(h.mem[node + BITS].kind, false)];
    }
    ghost var m := h.mem;
    forall i | 0 <= i < |c| ensures Linked(m, c, i) {
      assert Linked(old(h.mem), c, i) && c[i] != node + BITS;
    }
    var to := free;
    if h.mem[node + BITS].kind == Block {
      to := to + BLOCK_HEADER;
    }
    var current := h.mem[node + DATA].to;
    ghost var i := 0;
    ghost var w := Ptr(free + Bias(kind));
    assert h.mem == Resolved(m, c[..0], w);
    while current != NULL
      invariant 0 <= i <= |c| && Link(c, i) == Ptr(current)
      invariant h.mem == Resolved(m, c[..i], w)
      decreases |c| - i
    {
      assert current == c[i] && c[i] !in c[..i] && Linked(m, c, i);
      var temp := h.mem[current].to;
      h.mem := h.mem[current := Ptr(to)];
      assert c[..i + 1] == c[..i] + [c[i]];
      assert h.mem == Resolved(m, c[..i + 1], w);
      current := temp;
      i := i + 1;
    }
    assert c[..i] == c;
    h.mem := h.mem[node + DATA := Ptr(NULL)];
  }

  // ----- a visit of the forward pass -------------------------------------------------------

  lemma ChainBounds(g: Graph, m: Memory, lo: int, chains: seq<seq<Addr>>, threaded: set<Addr>, done: set<Addr>, k: int)
    requires Threads(g, m, lo, chains, threaded, done) && 0 <= k < |g.node| && lo <= k
    ensures IsChain(m, g.node[k], chains[k])
    ensures g.node[k] !in chains[k] && g.node[k] + BITS !in chains[k]
    ensures forall i :: 0 <= i < |chains[k]| ==> chains[k][i] < |m|
  {
    assert ChainOf(g, m, k, chains[k], threaded);
    forall i | 0 <= i < |chains[k]|
      ensures chains[k][i] < |m| && chains[k][i] != g.node[k] && chains[k][i] != g.node[k] + BITS
    {
      assert g.ValidSlot(chains[k][i], |m|);
      SlotsAreNotHeaders(g, |m|, chains[k][i], k);
    }
  }

  lemma ForwardUpdate(g: Graph, v: View, m: Memory, k: int, chains: seq<seq<Addr>>, m': Memory)
    requires Marked(v) && Describes(g, v) && |m| == |v.mem| && 0 <= k < |g.node| && Forward(g, v, m, k, chains)
    requires |m'| == |m| && m' == Resolved(m, chains[k], Ptr(g.dest[k] + Bias(g.kind[k])))[g.node[k] := Ptr(NULL)]
    ensures Visiting(g, v, m', k, g.node[k], chains[k := []]) && GraphWrites(g, m, m')
  {
    var threaded, done := ForwardThreaded(g, k), ForwardDone(g, k);
    ResolvingAChain(g, m, 0, chains, threaded, done, k, m');
    assert ChainOf(g, m, k, chains[k], threaded);
    forall a | a !in g.tgt && a !in g.node ensures At(m', a) == At(m, a) {
      assert a !in chains[k] && a != g.node[k];
    }
    GraphWritesKeep(g, v, m, m', 0);
    var now := set s | s in threaded && g.tgt[s] == k;
    assert threaded - now == VisitThreaded(g, k, g.node[k]) by {
      forall s | s in g.tgt ensures g.ValidSlot(s, |m|) {
      }
    }
    assert done + now == ForwardDone(g, k + 1);
  }

  /** The forward pass at the live object o, which will go to free. */
  method VisitForward(h: Heap, o: Addr, free: Addr, ghost g: Graph, ghost v: View, ghost k: int,
                      ghost chains: seq<seq<Addr>>)
    returns (ghost chains': seq<seq<Addr>>)
    requires Marked(v) && Describes(g, v) && |h.mem| == |v.mem|
    requires 0 <= k < |g.node| && o == g.node[k] && free == g.dest[k] && Forward(g, v, h.mem, k, chains)
    modifies h`mem
    ensures |h.mem| == |v.mem| && Forward(g, v, h.mem, k + 1, chains') && GraphWrites(g, old(h.mem), h.mem)
  {
    ReadHeader(g, v, h.mem, 0, k);
    ChainBounds(g, h.mem, 0, chains, ForwardThreaded(g, k), ForwardDone(g, k), k);
    Update(h, false, o, free, chains[k]);
    ForwardUpdate(g, v, old(h.mem), k, chains, h.mem);
    chains' := ThreadChildren(h, o, g, v, k, chains[k := []]);
  }
}
