/** What a visit of the backward pass does: the chain of the object is resolved, its mark bit is
    cleared and it is moved, overwriting nothing that is still needed. */
module GcMove {
  import opened GcMemory
  import opened GcHeap
  import opened GcThreads
  import opened GcGraph
  import opened GcSlide
  import opened GcPasses
  import opened GcForward
  import opened GcRuns

  /** The words of the j-th object when the collection is over. */
  ghost function FinalWord(g: Graph, m0: Memory, j: int, f: int): Word
    requires 0 <= j < |g.node| && |g.kind| == |g.node| && |g.dest| == |g.node|
  {
    if f == DATA then Ptr(NULL)
    else if f == BITS then Bits(g.kind[j], false)
    else if g.node[j] + f in g.tgt && 0 <= g.tgt[g.node[j] + f] < |g.dest| then g.NewWord(g.node[j] + f)
    else At(m0, g.node[j] + f)
  }

  /** The j-th object lies at `at`, complete. */
  ghost predicate FinalAt(g: Graph, m0: Memory, m: Memory, j: int, at: Addr)
    requires 0 <= j < |g.node| && |g.kind| == |g.node| && |g.dest| == |g.node| && |g.size| == |g.node|
  {
    forall a :: at <= a < at + g.size[j] ==> At(m, a) == FinalWord(g, m0, j, a - at)
  }

  ghost predicate Placed(g: Graph, v: View, m: Memory, j: int)
    requires 0 <= j < |g.node| && |g.kind| == |g.node| && |g.dest| == |g.node| && |g.size| == |g.node|
  {
    FinalAt(g, v.mem, m, j, g.dest[j])
  }

  /** The backward pass has visited the first k nodes. */
  ghost predicate Backward(g: Graph, v: View, m: Memory, k: int, chains: seq<seq<Addr>>) {
    && Threads(g, m, k, chains, BackwardThreaded(g, k), BackwardDone(g, k))
    && AllKept(g, v, m, k)
    && (forall j {:trigger Placed(g, v, m, j)} :: 0 <= j < |g.node| && j < k ==> Placed(g, v, m, j))
  }

  lemma HandOver(g: Graph, v: View, m: Memory, chains: seq<seq<Addr>>)
    requires Marked(v) && Describes(g, v) && Forward(g, v, m, |g.node|, chains)
    ensures Backward(g, v, m, 0, chains)
  {
    forall s | s in g.tgt ensures -1 <= g.src[s] < |g.node| && 0 <= g.tgt[s] < |g.node| {
      SlotInGraph(g, v, s);
    }
    assert ForwardThreaded(g, |g.node|) == BackwardThreaded(g, 0);
    assert ForwardDone(g, |g.node|) == BackwardDone(g, 0);
  }

  /** m' differs from m only inside nodes from k on and in roots. */
  ghost predicate LaterWrites(g: Graph, v: View, m: Memory, m': Memory, k: int)
    requires |g.size| == |g.node|
  {
    && |m'| == |m|
    && forall a :: At(m', a) != At(m, a) ==>
      || (exists j :: k <= j < |g.node| && 0 <= j && WithinNode(g, j, a))
      || (exists r :: 0 <= r < |v.roots| && v.roots[r].at == a)
  }

  ghost predicate WithinNode(g: Graph, j: int, a: Addr)
    requires 0 <= j < |g.node| && |g.size| == |g.node|
  {
    g.node[j] <= a < g.node[j] + g.size[j]
  }

  lemma LaterWritesKeepPlaced(g: Graph, v: View, m: Memory, m': Memory, k: int, j: int)
    requires Marked(v) && Describes(g, v) && 0 <= j < k <= |g.node|
    requires LaterWrites(g, v, m, m', k) && Placed(g, v, m, j)
    ensures Placed(g, v, m', j)
  {
    forall a | g.dest[j] <= a < g.dest[j] + g.size[j] ensures At(m', a) == At(m, a) {
      forall i | k <= i < |g.node| ensures !WithinNode(g, i, a) {
        DestMissesLater(g, v, j, i);
      }
      forall r | 0 <= r < |v.roots| ensures v.roots[r].at != a {
        DestMissesRoots(g, v, j, r);
      }
    }
  }

  /** The memory after update<true> on node k. */
  function Updated(m: Memory, node: Addr, kind: Kind, c: seq<Addr>, free: Addr): Memory
    requires 0 <= node && node + BITS < |m|
  {
    Resolved(m[node + BITS := Bits(kind, false)], c, Ptr(free + Bias(kind)))[node := Ptr(NULL)]
  }

  lemma UpdatedThreads(g: Graph, v: View, m: Memory, k: int, chains: seq<seq<Addr>>)
    requires Marked(v) && Describes(g, v) && |m| == |v.mem| && 0 <= k < |g.node| && Backward(g, v, m, k, chains)
    ensures 0 <= g.node[k] && g.node[k] + BITS < |m|
    ensures Threads(g, Updated(m, g.node[k], g.kind[k], chains[k], g.dest[k]), k, chains[k := []],
                    BackwardThreaded(g, k + 1), BackwardDone(g, k + 1))
  {
    NodesInBounds(g, v, k, k);
    var o := g.node[k];
    var m1 := m[o + BITS := Bits(g.kind[k], false)];
    var threaded, done := BackwardThreaded(g, k), BackwardDone(g, k);
    forall s | s in g.tgt ensures At(m1, s) == At(m, s) {
      SlotsAreNotHeaders(g, |m|, s, k);
    }
    forall j | 0 <= j < |g.node| ensures At(m1, g.node[j]) == At(m, g.node[j]) {
      NodesInBounds(g, v, j, k);
    }
    ThreadsFrame(g, m, m1, k, chains, threaded, done);
    var m' := Updated(m, o, g.kind[k], chains[k], g.dest[k]);
    ResolvingAChain(g, m1, k, chains, threaded, done, k, m');
    var now := set s | s in threaded && g.tgt[s] == k;
    assert threaded - now == BackwardThreaded(g, k + 1);
    assert done + now == BackwardDone(g, k + 1);
  }

  /** The slots in the chain of node k lie in nodes from k on, or in roots. */
  lemma ChainIsLater(g: Graph, v: View, m: Memory, k: int, chains: seq<seq<Addr>>, s: Addr)
    requires Marked(v) && Describes(g, v) && |m| == |v.mem| && 0 <= k < |g.node| && Backward(g, v, m, k, chains)
    requires s in chains[k]
    ensures s in g.tgt && s in g.src && g.tgt[s] == k
    ensures k <= g.src[s] < |g.node| && WithinNode(g, g.src[s], s)
  {
    assert ChainOf(g, m, k, chains[k], BackwardThreaded(g, k));
    SlotInGraph(g, v, s);
  }

  lemma UpdatedWrites(g: Graph, v: View, m: Memory, k: int, chains: seq<seq<Addr>>)
    requires Marked(v) && Describes(g, v) && |m| == |v.mem| && 0 <= k < |g.node| && Backward(g, v, m, k, chains)
    ensures 0 <= g.node[k] && g.node[k] + BITS < |m|
    ensures LaterWrites(g, v, m, Updated(m, g.node[k], g.kind[k], chains[k], g.dest[k]), k)
    ensures GraphWrites(g, m[g.node[k] + BITS := Bits(g.kind[k], false)],
                        Updated(m, g.node[k], g.kind[k], chains[k], g.dest[k]))
  {
    NodesInBounds(g, v, k, k);
    var m' := Updated(m, g.node[k], g.kind[k], chains[k], g.dest[k]);
    forall a | At(m', a) != At(m, a)
      ensures exists j :: k <= j < |g.node| && 0 <= j && WithinNode(g, j, a)
    {
      if a in chains[k] {
        ChainIsLater(g, v, m, k, chains, a);
      } else {
        assert WithinNode(g, k, a);
      }
    }
    forall a | a in chains[k] ensures a in g.tgt {
      ChainIsLater(g, v, m, k, chains, a);
    }
  }

  /** Once its chain is resolved, all slots of node k are done: it is complete where it lies. */
  lemma UpdatedIsFinal(g: Graph, v: View, m: Memory, k: int, chains: seq<seq<Addr>>)
    requires Marked(v) && Describes(g, v) && |m| == |v.mem| && 0 <= k < |g.node| && Backward(g, v, m, k, chains)
    ensures 0 <= g.node[k] && g.node[k] + BITS < |m|
    ensures FinalAt(g, v.mem, Updated(m, g.node[k], g.kind[k], chains[k], g.dest[k]), k, g.node[k])
  {
    UpdatedThreads(g, v, m, k, chains);
    NodesInBounds(g, v, k, k);
    var o := g.node[k];
    var m' := Updated(m, o, g.kind[k], chains[k], g.dest[k]);
    ChainBounds(g, m, k, chains, BackwardThreaded(g, k), BackwardDone(g, k), k);
    assert KeptNode(g, v.mem, m, k);
    forall a | o <= a < o + g.size[k] ensures At(m', a) == FinalWord(g, v.mem, k, a - o) {
      if a in g.tgt && a >= o + 2 {
        FieldInGraph(g, v, k, a - o);
        assert SlotOk(g, m', k, a, chains[k := []], BackwardThreaded(g, k + 1), BackwardDone(g, k + 1));
      } else if a >= o + 2 {
        if a in chains[k] {
          ChainIsLater(g, v, m, k, chains, a);
        }
      }
    }
  }

  // ----- the move --------------------------------------------------------------------------

  /** memmove */
  function Moved(m: Memory, from: Addr, to: Addr, size: int): (r: Memory)
    requires 0 <= from && 0 <= to && 0 <= size && from + size <= |m| && to + size <= |m|
    ensures |r| == |m|
    ensures forall a :: At(r, a) == if to <= a < to + size then At(m, a - to + from) else At(m, a)
  {
    m[..to] + m[from..from + size] + m[to + size..]
  }

  lemma MovedElsewhere(m: Memory, from: Addr, to: Addr, size: int, a: Addr)
    requires 0 <= from && 0 <= to && 0 <= size && from + size <= |m| && to + size <= |m|
    requires a < to || to + size <= a
    ensures At(Moved(m, from, to, size), a) == At(m, a)
  {
  }

  lemma MoveMissesSlot(g: Graph, v: View, m: Memory, k: int, s: Addr)
    requires Marked(v) && Describes(g, v) && |m| == |v.mem| && 0 <= k < |g.node|
    requires 0 < g.dest[k] && g.dest[k] + g.size[k] <= |m| && 0 < g.node[k] && 3 <= g.size[k]
      && g.node[k] + g.size[k] <= |m|
    requires s in g.tgt && s in g.src && g.Present(s, k + 1)
    ensures At(Moved(m, g.node[k], g.dest[k], g.size[k]), s) == At(m, s)
  {
    hide Moved, Marked;
    SlotInGraph(g, v, s);
    if g.src[s] >= 0 {
      DestMissesLater(g, v, k, g.src[s]);
    } else {
      assert SlotIs(g, v, s);
      var i, r := SlotCases(v, s);
      if r >= 0 {
        DestMissesRoots(g, v, k, r);
      } else {
        ObjectSlot(v, i, s);
      }
    }
    MovedElsewhere(m, g.node[k], g.dest[k], g.size[k], s);
  }

  lemma MoveMissesNode(g: Graph, v: View, m: Memory, k: int, j: int)
    requires Marked(v) && Describes(g, v) && |m| == |v.mem| && 0 <= k < j < |g.node|
    requires 0 < g.dest[k] && g.dest[k] + g.size[k] <= |m| && 0 < g.node[k] && 3 <= g.size[k]
      && g.node[k] + g.size[k] <= |m|
    ensures At(Moved(m, g.node[k], g.dest[k], g.size[k]), g.node[j]) == At(m, g.node[j])
  {
    hide Moved;
    DestMissesLater(g, v, k, j);
    NodesInBounds(g, v, j, j);
    MovedElsewhere(m, g.node[k], g.dest[k], g.size[k], g.node[j]);
  }

  lemma MoveThreads(g: Graph, v: View, m: Memory, k: int, chains: seq<seq<Addr>>)
    requires Marked(v) && Describes(g, v) && |m| == |v.mem| && 0 <= k < |g.node|
    requires 0 < g.dest[k] && g.dest[k] + g.size[k] <= |m| && 0 < g.node[k] && 3 <= g.size[k]
      && g.node[k] + g.size[k] <= |m|
    requires Threads(g, m, k, chains, BackwardThreaded(g, k + 1), BackwardDone(g, k + 1))
    ensures Threads(g, Moved(m, g.node[k], g.dest[k], g.size[k]), k + 1, chains, BackwardThreaded(g, k + 1),
                    BackwardDone(g, k + 1))
  {
    var m' := Moved(m, g.node[k], g.dest[k], g.size[k]);
    ThreadsLater(g, m, k, chains, BackwardThreaded(g, k + 1), BackwardDone(g, k + 1));
    hide Marked, Describes, Threads, BackwardThreaded, BackwardDone, Moved;
    forall s | s in g.tgt && s in g.src && g.Present(s, k + 1) ensures At(m', s) == At(m, s) {
      MoveMissesSlot(g, v, m, k, s);
    }
    forall j | 0 <= j < |g.node| && k + 1 <= j ensures At(m', g.node[j]) == At(m, g.node[j]) {
      MoveMissesNode(g, v, m, k, j);
    }
    ThreadsFrame(g, m, m', k + 1, chains, BackwardThreaded(g, k + 1), BackwardDone(g, k + 1));
  }

  lemma ThreadsLater(g: Graph, m: Memory, k: int, chains: seq<seq<Addr>>, threaded: set<Addr>, done: set<Addr>)
    requires 0 <= k < |g.node| && Threads(g, m, k, chains, threaded, done)
    requires forall s :: s in threaded ==> s in g.tgt && s in g.src && k + 1 <= g.tgt[s] <= g.src[s]
    ensures Threads(g, m, k + 1, chains, threaded, done)
  {
    forall s | s in g.tgt ensures g.ValidSlot(s, |m|) && SlotOk(g, m, k + 1, s, chains, threaded, done) {
      assert g.ValidSlot(s, |m|) && SlotOk(g, m, k, s, chains, threaded, done);
    }
    forall j | 0 <= j < |g.node| && k + 1 <= j ensures ChainOf(g, m, j, chains[j], threaded) {
    }
  }

  lemma MoveKeeps(g: Graph, v: View, m: Memory, k: int)
    requires Marked(v) && Describes(g, v) && |m| == |v.mem| && 0 <= k < |g.node| && AllKept(g, v, m, k + 1)
    requires 0 < g.dest[k] && g.dest[k] + g.size[k] <= |m| && 0 < g.node[k] && 3 <= g.size[k]
      && g.node[k] + g.size[k] <= |m|
    ensures AllKept(g, v, Moved(m, g.node[k], g.dest[k], g.size[k]), k + 1)
  {
    var m' := Moved(m, g.node[k], g.dest[k], g.size[k]);
    forall j | 0 <= j < |g.node| && k + 1 <= j ensures KeptNode(g, v.mem, m', j) {
      assert KeptNode(g, v.mem, m, j);
      DestMissesLater(g, v, k, j);
    }
    forall r | 0 <= r < |v.roots| ensures KeptRoot(g, v, m', r) {
      assert KeptRoot(g, v, m, r);
      DestMissesRoots(g, v, k, r);
    }
    forall n | |v.objs| <= n < v.Count() && !Live(v, n) ensures HeaderKept(v, m', n) {
      MoveKeepsPinned(g, v, m, k, n);
    }
  }

  lemma DestMissesDeadPinned(g: Graph, v: View, k: int, n: int)
    requires Marked(v) && Describes(g, v) && 0 <= k < |g.node| && |v.objs| <= n < v.Count() && !Live(v, n)
    ensures Apart(g.dest[k], g.size[k], v.ObjAt(n).at, v.ObjAt(n).size) && 3 <= v.ObjAt(n).size
  {
    assert v.ObjOk(n);
    if k < |LiveObjs(v)| {
      DestFits(g, v, k);
      assert v.OutsideRegions(n, PlaceOf(v, k).region);
    } else {
      PinnedNode(g, v, k, 0);
      NodeAt(g, v, k);
      NodesApart(v, n, Visited(v, k));
    }
  }

  lemma MoveKeepsPinned(g: Graph, v: View, m: Memory, k: int, n: int)
    requires Marked(v) && Describes(g, v) && |m| == |v.mem| && 0 <= k < |g.node| && AllKept(g, v, m, k + 1)
    requires 0 < g.dest[k] && g.dest[k] + g.size[k] <= |m| && 0 < g.node[k] && 3 <= g.size[k]
      && g.node[k] + g.size[k] <= |m|
    requires |v.objs| <= n < v.Count() && !Live(v, n)
    ensures HeaderKept(v, Moved(m, g.node[k], g.dest[k], g.size[k]), n)
  {
    assert HeaderKept(v, m, n);
    DestMissesDeadPinned(g, v, k, n);
  }

  lemma UpdateKeeps(g: Graph, v: View, m: Memory, k: int, chains: seq<seq<Addr>>)
    requires Marked(v) && Describes(g, v) && |m| == |v.mem| && 0 <= k < |g.node| && Backward(g, v, m, k, chains)
    ensures 0 <= g.node[k] && g.node[k] + BITS < |m|
    ensures AllKept(g, v, Updated(m, g.node[k], g.kind[k], chains[k], g.dest[k]), k + 1)
  {
    hide BackwardThreaded, BackwardDone, Placed, AllKept, Updated, LaterWrites, GraphWrites;
    NodesInBounds(g, v, k, k);
    UpdatedWrites(g, v, m, k, chains);
    BitsKeep(g, v, m, k);
    var m1 := m[g.node[k] + BITS := Bits(g.kind[k], false)];
    GraphWritesKeep(g, v, m1, Updated(m, g.node[k], g.kind[k], chains[k], g.dest[k]), k + 1);
  }

  lemma BitsKeep(g: Graph, v: View, m: Memory, k: int)
    requires Marked(v) && Describes(g, v) && |m| == |v.mem| && 0 <= k < |g.node| && AllKept(g, v, m, k)
    requires 0 <= g.node[k] && g.node[k] + BITS < |m|
    ensures AllKept(g, v, m[g.node[k] + BITS := Bits(g.kind[k], false)], k + 1)
  {
    var m1 := m[g.node[k] + BITS := Bits(g.kind[k], false)];
    NodesInBounds(g, v, k, k);
    forall j | 0 <= j < |g.node| && k + 1 <= j ensures KeptNode(g, v.mem, m1, j) {
      assert KeptNode(g, v.mem, m, j);
      NodesInBounds(g, v, k, j);
    }
    forall r | 0 <= r < |v.roots| ensures KeptRoot(g, v, m1, r) {
      assert KeptRoot(g, v, m, r);
      RootOutsideNodes(g, v, r, k);
    }
    forall n | |v.objs| <= n < v.Count() && !Live(v, n) ensures HeaderKept(v, m1, n) {
      assert HeaderKept(v, m, n) && v.ObjOk(n);
      NodeAt(g, v, k);
      NodesApart(v, n, Visited(v, k));
    }
  }

  /** A visit of the backward pass: update<true>, then move. */
  lemma BackwardVisit(g: Graph, v: View, m: Memory, k: int, chains: seq<seq<Addr>>)
    requires Marked(v) && Describes(g, v) && |m| == |v.mem| && 0 <= k < |g.node| && Backward(g, v, m, k, chains)
    ensures 0 < g.dest[k] && g.dest[k] + g.size[k] <= |m| && 0 < g.node[k] && 3 <= g.size[k]
      && g.node[k] + g.size[k] <= |m|
    ensures Backward(g, v, Moved(Updated(m, g.node[k], g.kind[k], chains[k], g.dest[k]), g.node[k], g.dest[k],
                                 g.size[k]),
                     k + 1, chains[k := []])
  {
    DestInBounds(g, v, k);
    BackwardVisitThreads(g, v, m, k, chains);
    BackwardVisitPlaces(g, v, m, k, chains);
    hide Marked, Describes, Threads, AllKept, Updated, Moved;
  }

  lemma BackwardVisitThreads(g: Graph, v: View, m: Memory, k: int, chains: seq<seq<Addr>>)
    requires Marked(v) && Describes(g, v) && |m| == |v.mem| && 0 <= k < |g.node| && Backward(g, v, m, k, chains)
    requires 0 < g.dest[k] && g.dest[k] + g.size[k] <= |m| && 0 < g.node[k] && 3 <= g.size[k]
      && g.node[k] + g.size[k] <= |m|
    ensures var m' := Moved(Updated(m, g.node[k], g.kind[k], chains[k], g.dest[k]), g.node[k], g.dest[k], g.size[k]);
      && Threads(g, m', k + 1, chains[k := []], BackwardThreaded(g, k + 1), BackwardDone(g, k + 1))
      && AllKept(g, v, m', k + 1)
  {
    UpdatedThreads(g, v, m, k, chains);
    UpdateKeeps(g, v, m, k, chains);
    var m1 := Updated(m, g.node[k], g.kind[k], chains[k], g.dest[k]);
    MoveThreads(g, v, m1, k, chains[k := []]);
    MoveKeeps(g, v, m1, k);
  }

  lemma BackwardVisitPlaces(g: Graph, v: View, m: Memory, k: int, chains: seq<seq<Addr>>)
    requires Marked(v) && Describes(g, v) && |m| == |v.mem| && 0 <= k < |g.node| && Backward(g, v, m, k, chains)
    requires 0 < g.dest[k] && g.dest[k] + g.size[k] <= |m| && 0 < g.node[k] && 3 <= g.size[k]
      && g.node[k] + g.size[k] <= |m|
    ensures var m' := Moved(Updated(m, g.node[k], g.kind[k], chains[k], g.dest[k]), g.node[k], g.dest[k], g.size[k]);
      forall j {:trigger Placed(g, v, m', j)} :: 0 <= j < |g.node| && j < k + 1 ==> Placed(g, v, m', j)
  {
    UpdatedWrites(g, v, m, k, chains);
    UpdatedIsFinal(g, v, m, k, chains);
    var m1 := Updated(m, g.node[k], g.kind[k], chains[k], g.dest[k]);
    var m2 := Moved(m1, g.node[k], g.dest[k], g.size[k]);
    forall j | 0 <= j < |g.node| && j < k + 1 ensures Placed(g, v, m2, j) {
      if j < k {
        assert Placed(g, v, m, j);
        LaterWritesKeepPlaced(g, v, m, m1, k, j);
        MoveKeepsPlaced(g, v, m1, k, j);
      } else {
        MovePlaces(g, v, m1, k);
      }
    }
  }

  lemma MoveKeepsPlaced(g: Graph, v: View, m: Memory, k: int, j: int)
    requires Marked(v) && Describes(g, v) && 0 <= j < k < |g.node| && Placed(g, v, m, j)
    requires 0 < g.dest[k] && g.dest[k] + g.size[k] <= |m| && 0 < g.node[k] && 3 <= g.size[k]
      && g.node[k] + g.size[k] <= |m|
    ensures Placed(g, v, Moved(m, g.node[k], g.dest[k], g.size[k]), j)
  {
    DestsApart(g, v, j, k);
    var m' := Moved(m, g.node[k], g.dest[k], g.size[k]);
    forall a | g.dest[j] <= a < g.dest[j] + g.size[j] ensures At(m', a) == FinalWord(g, v.mem, j, a - g.dest[j]) {
      assert At(m', a) == At(m, a);
    }
  }

  lemma MovePlaces(g: Graph, v: View, m: Memory, k: int)
    requires Describes(g, v) && 0 <= k < |g.node| && FinalAt(g, v.mem, m, k, g.node[k])
    requires 0 < g.dest[k] && g.dest[k] + g.size[k] <= |m| && 0 < g.node[k] && 3 <= g.size[k]
      && g.node[k] + g.size[k] <= |m|
    ensures Placed(g, v, Moved(m, g.node[k], g.dest[k], g.size[k]), k)
  {
    var m' := Moved(m, g.node[k], g.dest[k], g.size[k]);
    forall a | g.dest[k] <= a < g.dest[k] + g.size[k] ensures At(m', a) == FinalWord(g, v.mem, k, a - g.dest[k]) {
      assert At(m', a) == At(m, a - g.dest[k] + g.node[k]);
    }
  }

  lemma DestInBounds(g: Graph, v: View, k: int)
    requires Marked(v) && Describes(g, v) && 0 <= k < |g.node|
    ensures 0 < g.dest[k] && g.dest[k] + g.size[k] <= |v.mem| && 0 < g.node[k] && 3 <= g.size[k]
      && g.node[k] + g.size[k] <= |v.mem|
  {
    NodesInBounds(g, v, k, k);
    if k < |LiveObjs(v)| {
      DestFits(g, v, k);
    } else {
      PinnedNode(g, v, k, 0);
    }
  }

  /** The walker's records ahead of it survive the visit. */
  lemma BackwardKeepsDead(g: Graph, v: View, m: Memory, w: int, chains: seq<seq<Addr>>)
    requires Marked(v) && Describes(g, v) && |m| == |v.mem| && 0 <= w < |v.objs| && Live(v, w)
    requires Rank(v, w) < |g.node| && Backward(g, v, m, Rank(v, w), chains) && AllDeadOk(v, m, w, |v.objs|)
    ensures var k := Rank(v, w);
      && 0 < g.dest[k] && g.dest[k] + g.size[k] <= |m| && 0 < g.node[k] && 3 <= g.size[k]
      && g.node[k] + g.size[k] <= |m|
      && AllDeadOk(v, Moved(Updated(m, g.node[k], g.kind[k], chains[k], g.dest[k]), g.node[k], g.dest[k], g.size[k]),
                   w + 1, |v.objs|)
  {
    hide AllKept, Placed, BackwardThreaded, BackwardDone, Updated, Moved, AllDeadOk, LaterWrites, GraphWrites;
    var k := Rank(v, w);
    DestInBounds(g, v, k);
    UpdatedWrites(g, v, m, k, chains);
    assert NodeIs(g, v, w);
    RankOfLive(v, w, v.Count());
    RegionNode(g, v, k);
    var m1 := m[g.node[k] + BITS := Bits(g.kind[k], false)];
    var m2 := Updated(m, g.node[k], g.kind[k], chains[k], g.dest[k]);
    BitsKeepDead(v, m, m1, w);
    GraphWritesKeepDead(g, v, m1, m2, w + 1, |v.objs|);
    MoveKeepsDead(g, v, m2, w, k);
  }

  lemma BitsKeepDead(v: View, m: Memory, m': Memory, w: int)
    requires v.Layout() && 0 <= w < |v.objs| && AllDeadOk(v, m, w, |v.objs|)
    requires forall a :: !WithinObj(a, v.objs[w]) ==> At(m', a) == At(m, a)
    ensures AllDeadOk(v, m', w + 1, |v.objs|)
  {
    forall h | 0 <= h < |v.objs| && w + 1 <= h ensures DeadOk(v, m', h, |v.objs|) {
      assert DeadOk(v, m, h, |v.objs|) && v.ObjOk(h);
      NodesApart(v, w, h);
    }
  }

  lemma MoveKeepsDead(g: Graph, v: View, m: Memory, w: int, k: int)
    requires Marked(v) && Describes(g, v) && |m| == |v.mem| && 0 <= w < |v.objs|
    requires 0 <= k < |g.node| && k < |LiveObjs(v)| && Visited(v, k) == w && AllDeadOk(v, m, w + 1, |v.objs|)
    requires 0 < g.dest[k] && g.dest[k] + g.size[k] <= |m| && 0 < g.node[k] && 3 <= g.size[k]
      && g.node[k] + g.size[k] <= |m|
    ensures AllDeadOk(v, Moved(m, g.node[k], g.dest[k], g.size[k]), w + 1, |v.objs|)
  {
    forall h | 0 <= h < |v.objs| && w + 1 <= h
      ensures DeadOk(v, Moved(m, g.node[k], g.dest[k], g.size[k]), h, |v.objs|) {
      assert DeadOk(v, m, h, |v.objs|);
      MoveKeepsOneDead(g, v, m, k, h);
    }
  }

  lemma MoveKeepsOneDead(g: Graph, v: View, m: Memory, k: int, h: int)
    requires Marked(v) && Describes(g, v) && |m| == |v.mem| && 0 <= h < |v.objs| && DeadOk(v, m, h, |v.objs|)
    requires 0 <= k < |g.node| && k < |LiveObjs(v)| && Visited(v, k) < h
    requires 0 < g.dest[k] && g.dest[k] + g.size[k] <= |m| && 0 < g.node[k] && 3 <= g.size[k]
      && g.node[k] + g.size[k] <= |m|
    ensures DeadOk(v, Moved(m, g.node[k], g.dest[k], g.size[k]), h, |v.objs|)
  {
    assert v.ObjOk(h);
    DestMissesWalk(g, v, k, h);
  }

  // ----- the threading discipline ----------------------------------------------------------

  /** When the forward pass comes to node k, its chain holds exactly the root slots and the slots of
      earlier objects that refer to it. */
  lemma ForwardChainIsExact(g: Graph, v: View, m: Memory, k: int, chains: seq<seq<Addr>>, s: Addr)
    requires Marked(v) && Describes(g, v) && |m| == |v.mem| && 0 <= k < |g.node| && Forward(g, v, m, k, chains)
    ensures |chains| == |g.node| && IsChain(m, g.node[k], chains[k])
    ensures s in chains[k] <==> s in g.tgt && s in g.src && g.tgt[s] == k && g.src[s] < k
  {
    ChainBounds(g, m, 0, chains, ForwardThreaded(g, k), ForwardDone(g, k), k);
    assert ChainOf(g, m, k, chains[k], ForwardThreaded(g, k));
    if s in g.tgt && s in g.src && g.tgt[s] == k && g.src[s] < k {
      assert SlotOk(g, m, 0, s, chains, ForwardThreaded(g, k), ForwardDone(g, k));
    }
  }

  /** When the backward pass comes to node k, its chain holds exactly the slots of k itself and of
      later objects that refer to it. */
  lemma BackwardChainIsExact(g: Graph, v: View, m: Memory, k: int, chains: seq<seq<Addr>>, s: Addr)
    requires Marked(v) && Describes(g, v) && |m| == |v.mem| && 0 <= k < |g.node| && Backward(g, v, m, k, chains)
    ensures |chains| == |g.node| && IsChain(m, g.node[k], chains[k])
    ensures s in chains[k] <==> s in g.tgt && s in g.src && g.tgt[s] == k && k <= g.src[s]
  {
    ChainBounds(g, m, k, chains, BackwardThreaded(g, k), BackwardDone(g, k), k);
    assert ChainOf(g, m, k, chains[k], BackwardThreaded(g, k));
    if s in g.tgt && s in g.src && g.tgt[s] == k && k <= g.src[s] {
      assert SlotOk(g, m, k, s, chains, BackwardThreaded(g, k), BackwardDone(g, k));
    }
  }

  /** An object is moved only when none of its slots is in a chain. */
  lemma MovedObjectIsUnthreaded(g: Graph, v: View, m: Memory, k: int, chains: seq<seq<Addr>>, j: int, f: int)
    requires Marked(v) && Describes(g, v) && |m| == |v.mem| && 0 <= k < |g.node| && Backward(g, v, m, k, chains)
    requires k < j < |g.node| && 0 <= f < g.size[k]
    ensures |chains| == |g.node| && g.node[k] + f !in chains[j]
  {
    var s := g.node[k] + f;
    assert ChainOf(g, m, j, chains[j], BackwardThreaded(g, k));
    if f >= 2 {
      FieldInGraph(g, v, k, f);
    } else {
      forall t | t in g.tgt ensures t != s {
        SlotsAreNotHeaders(g, |m|, t, k);
      }
    }
  }

  /** At the end of the collection every chain is empty. */
  lemma AllChainsEmpty(g: Graph, v: View, m: Memory, chains: seq<seq<Addr>>, k: int)
    requires Marked(v) && Describes(g, v) && |m| == |v.mem| && 0 <= k < |g.node| && Backward(g, v, m, |g.node|, chains)
    ensures BackwardThreaded(g, |g.node|) == {} && At(m, g.dest[k]) == Ptr(NULL)
  {
    forall s | s in g.tgt ensures 0 <= g.tgt[s] < |g.node| {
      SlotInGraph(g, v, s);
    }
    DestInBounds(g, v, k);
    assert Placed(g, v, m, k);
    assert At(m, g.dest[k]) == FinalWord(g, v.mem, k, DATA);
  }
}
