/** The graph the compactor threads, taken from a marked heap. */
module GcGraph {
  import opened GcMemory
  import opened GcHeap
  import opened GcPlan
  import opened GcThreads

  /** The object with index i is marked. */
  ghost predicate Live(v: View, i: int)
    requires 0 <= i < v.Count()
  {
    MarkedAt(v.mem, v.ObjAt(i).at)
  }

  /** The indices below n of the live objects, in visiting order. */
  ghost function Alive(v: View, n: int): (r: seq<int>)
    requires 0 <= n <= v.Count()
    ensures forall k :: 0 <= k < |r| ==> 0 <= r[k] < n
  {
    if n == 0 then [] else Alive(v, n - 1) + if Live(v, n - 1) then [n - 1] else []
  }

  ghost predicate Increasing(s: seq<int>) {
    forall j, k :: 0 <= j < k < |s| ==> s[j] < s[k]
  }

  lemma {:induction false} AliveIncreases(v: View, n: int)
    requires 0 <= n <= v.Count()
    ensures Increasing(Alive(v, n))
    ensures forall k :: 0 <= k < |Alive(v, n)| ==> Live(v, Alive(v, n)[k])
  {
    if n > 0 {
      AliveIncreases(v, n - 1);
    }
  }

  lemma {:induction false} AlivePrefix(v: View, i: int, n: int)
    requires 0 <= i <= n <= v.Count()
    ensures Alive(v, i) <= Alive(v, n)
    decreases n
  {
    if i < n {
      AlivePrefix(v, i, n - 1);
    }
  }

  /** How many objects are visited before object i. */
  ghost function Rank(v: View, i: int): nat
    requires 0 <= i <= v.Count()
  {
    |Alive(v, i)|
  }

  lemma RankOfLive(v: View, i: int, n: int)
    requires 0 <= i < n <= v.Count() && Live(v, i)
    ensures Rank(v, i) < Rank(v, n) && Alive(v, n)[Rank(v, i)] == i
    ensures Rank(v, i + 1) == Rank(v, i) + 1
  {
    AlivePrefix(v, i + 1, n);
  }

  lemma RankOfAlive(v: View, k: int, n: int)
    requires 0 <= n <= v.Count() && 0 <= k < |Alive(v, n)|
    ensures Rank(v, Alive(v, n)[k]) == k
  {
    AliveIncreases(v, n);
    var i := Alive(v, n)[k];
    RankOfLive(v, i, n);
    IncreasingIsInjective(Alive(v, n), k, Rank(v, i));
  }

  lemma IncreasingIsInjective(s: seq<int>, j: int, k: int)
    requires Increasing(s) && 0 <= j < |s| && 0 <= k < |s| && s[j] == s[k]
    ensures j == k
  {
  }

  /** The live objects of the regions. */
  ghost function LiveObjs(v: View): (r: seq<Obj>)
    ensures |r| == |Alive(v, |v.objs|)|
    ensures forall k :: 0 <= k < |r| ==> r[k] == v.objs[Alive(v, |v.objs|)[k]]
  {
    var a := Alive(v, |v.objs|);
    seq(|a|, k requires 0 <= k < |a| => v.objs[a[k]])
  }

  // ----- slots -----------------------------------------------------------------------------

  ghost predicate SlotIn(v: View, i: int, s: Addr)
    requires 0 <= i < v.Count()
  {
    IsSlot(v.mem, v.ObjAt(i).at, s - v.ObjAt(i).at)
  }

  ghost predicate LiveSlotIn(v: View, i: int, s: Addr)
    requires 0 <= i < v.Count()
  {
    Live(v, i) && SlotIn(v, i, s)
  }

  ghost predicate RootSlot(v: View, i: int, s: Addr)
    requires 0 <= i < |v.roots|
  {
    v.roots[i].at == s && IsRef(v.roots[i].sort, At(v.mem, s))
  }

  ghost predicate InLiveObject(v: View, s: Addr) {
    exists i :: 0 <= i < v.Count() && LiveSlotIn(v, i, s)
  }

  ghost predicate InRoots(v: View, s: Addr) {
    exists i :: 0 <= i < |v.roots| && RootSlot(v, i, s)
  }

  ghost predicate IsObject(v: View, i: int, a: Addr)
    requires 0 <= i < v.Count()
  {
    v.ObjAt(i).at == a
  }

  ghost function IndexOf(v: View, a: Addr): (i: int)
    ensures 0 <= i <= v.Count()
    ensures i < v.Count() ==> IsObject(v, i, a)
  {
    if i :| 0 <= i < v.Count() && IsObject(v, i, a) then i else v.Count()
  }

  /** The index of the object the slot s refers to. */
  ghost function TargetIndex(v: View, s: Addr): (i: int)
    ensures 0 <= i <= v.Count()
  {
    if i :| 0 <= i < v.Count() && LiveSlotIn(v, i, s) then
      IndexOf(v, SlotTarget(v.mem, v.ObjAt(i).at, s - v.ObjAt(i).at))
    else if i :| 0 <= i < |v.roots| && RootSlot(v, i, s) then
      IndexOf(v, Target(v.roots[i].sort, At(v.mem, s)))
    else v.Count()
  }

  ghost function SourceRank(v: View, s: Addr): (i: int)
    ensures -1 <= i
  {
    if i :| 0 <= i < v.Count() && LiveSlotIn(v, i, s) then Rank(v, i) else -1
  }

  ghost function Slots(v: View): set<Addr> {
    set s | 0 <= s < |v.mem| && (InLiveObject(v, s) || InRoots(v, s))
  }

  ghost function DestOf(v: View, k: int): Addr
    requires 0 <= k < |Alive(v, v.Count())|
  {
    if k < |LiveObjs(v)| then Dest(v.regions, LiveObjs(v), k).pos else v.ObjAt(Alive(v, v.Count())[k]).at
  }

  ghost function GraphOf(v: View): Graph {
    var a := Alive(v, v.Count());
    Graph(
      seq(|a|, k requires 0 <= k < |a| => v.ObjAt(a[k]).at),
      seq(|a|, k requires 0 <= k < |a| => v.ObjAt(a[k]).size),
      seq(|a|, k requires 0 <= k < |a| => KindAt(v.mem, v.ObjAt(a[k]).at)),
      seq(|a|, k requires 0 <= k < |a| => DestOf(v, k)),
      map s | s in Slots(v) :: Rank(v, TargetIndex(v, s)) as int,
      map s | s in Slots(v) :: SourceRank(v, s))
  }

  /** A marked heap between marking and compaction: laid out, the lists empty, the mark bits
      closed under references. */
  ghost predicate Marked(v: View) {
    && v.Layout()
    && (forall i :: 0 <= i < v.Count() ==> EmptyList(v, i))
    && (forall i, s ::
        0 <= i < v.Count() && LiveSlotIn(v, i, s) ==>
          LiveTarget(v, SlotTarget(v.mem, v.ObjAt(i).at, s - v.ObjAt(i).at)))
    && (forall i, s :: 0 <= i < |v.roots| && RootSlot(v, i, s) ==> LiveTarget(v, Target(v.roots[i].sort, At(v.mem, s))))
    && (forall i :: |v.objs| + |v.pinned| <= i < v.Count() ==> Live(v, i))
  }

  ghost predicate EmptyList(v: View, i: int)
    requires 0 <= i < v.Count()
  {
    At(v.mem, v.ObjAt(i).at) == Ptr(NULL)
  }

  ghost predicate LiveTarget(v: View, a: Addr) {
    IndexOf(v, a) < v.Count() && Live(v, IndexOf(v, a))
  }

  lemma NodesApart(v: View, i: int, j: int)
    requires v.Layout() && 0 <= i < v.Count() && 0 <= j < v.Count()
    ensures i != j ==> ObjsApart(v.ObjAt(i), v.ObjAt(j))
  {
    assert i < j ==> v.Separate(i, j);
    assert j < i ==> v.Separate(j, i);
  }

  lemma IndexIsUnique(v: View, i: int)
    requires v.Layout() && 0 <= i < v.Count()
    ensures IndexOf(v, v.ObjAt(i).at) == i
  {
    assert IsObject(v, i, v.ObjAt(i).at);
    var j := IndexOf(v, v.ObjAt(i).at);
    assert v.ObjOk(i) && v.ObjOk(j);
    NodesApart(v, i, j);
  }

  /** A slot lies in one object only. */
  lemma SlotOwner(v: View, i: int, j: int, s: Addr)
    requires v.Layout() && 0 <= i < v.Count() && 0 <= j < v.Count()
    requires SlotIn(v, i, s) && SlotIn(v, j, s)
    ensures i == j
  {
    assert v.ObjOk(i) && v.ObjOk(j);
    NodesApart(v, i, j);
  }

  lemma RootIsNoSlot(v: View, r: int, i: int)
    requires v.Layout() && 0 <= i < v.Count() && 0 <= r < |v.roots|
    ensures !SlotIn(v, i, v.roots[r].at)
  {
    assert v.RootOutsideObj(r, i) && v.ObjOk(i);
  }

  /** The reference at s in object i is to object j, which is live. */
  ghost predicate AimsAt(v: View, i: int, s: Addr, j: int)
    requires 0 <= i < v.Count() && LiveSlotIn(v, i, s)
  {
    && 0 <= j < v.Count() && Live(v, j)
    && v.ObjAt(j).at == SlotTarget(v.mem, v.ObjAt(i).at, s - v.ObjAt(i).at)
    && At(v.mem, s) == Ptr(v.ObjAt(j).at + Bias(KindAt(v.mem, v.ObjAt(j).at)))
  }

  /** A slot belongs to one object. */
  lemma SlotOfOne(v: View, i: int, s: Addr)
    requires v.Layout() && 0 <= i < v.Count() && LiveSlotIn(v, i, s)
    ensures SourceRank(v, s) == Rank(v, i)
    ensures TargetIndex(v, s) == IndexOf(v, SlotTarget(v.mem, v.ObjAt(i).at, s - v.ObjAt(i).at))
  {
    hide View.Layout, SlotIn, Live, Rank, IndexOf;
    forall j | 0 <= j < v.Count() && LiveSlotIn(v, j, s) ensures j == i {
      SlotOwner(v, i, j, s);
    }
  }

  /** What the graph says about a slot of a live object. */
  lemma ObjectSlot(v: View, i: int, s: Addr)
    requires Marked(v) && 0 <= i < v.Count() && LiveSlotIn(v, i, s)
    ensures s in Slots(v) && v.ObjAt(i).at + 2 <= s < v.ObjAt(i).at + v.ObjAt(i).size
    ensures SourceRank(v, s) == Rank(v, i) && AimsAt(v, i, s, TargetIndex(v, s))
  {
    hide SourceRank, TargetIndex, Rank, IndexOf;
    SlotOfOne(v, i, s);
    assert v.ObjOk(i);
    SlotAims(v, i, s);
  }

  lemma SlotAims(v: View, i: int, s: Addr)
    requires Marked(v) && 0 <= i < v.Count() && LiveSlotIn(v, i, s)
    ensures AimsAt(v, i, s, IndexOf(v, SlotTarget(v.mem, v.ObjAt(i).at, s - v.ObjAt(i).at)))
  {
    hide Rank;
    var f := s - v.ObjAt(i).at;
    assert LiveTarget(v, SlotTarget(v.mem, v.ObjAt(i).at, f));
    assert v.ObjResolves(i);
    assert v.Resolves(SortOf(KindAt(v.mem, v.ObjAt(i).at), f), At(v.mem, v.ObjAt(i).at + f));
  }

  /** What the graph says about a root slot. */
  lemma RootInGraph(v: View, r: int)
    requires Marked(v) && 0 <= r < |v.roots|
    ensures 0 < v.roots[r].at < |v.mem|
    ensures forall i :: 0 <= i < v.Count() ==> !WithinObj(v.roots[r].at, v.ObjAt(i))
    ensures var s := v.roots[r].at; s in Slots(v) <==> RootSlot(v, r, s)
    ensures var s := v.roots[r].at; SourceRank(v, s) == -1
    ensures var s := v.roots[r].at; RootSlot(v, r, s) ==>
      var j := TargetIndex(v, s);
      && j < v.Count() && Live(v, j) && v.ObjAt(j).at == Target(v.roots[r].sort, At(v.mem, s))
      && At(v.mem, s) == Ptr(v.ObjAt(j).at + Bias(KindAt(v.mem, v.ObjAt(j).at)))
  {
    var s := v.roots[r].at;
    assert v.RootOk(r);
    forall i | 0 <= i < v.Count() ensures !LiveSlotIn(v, i, s) && !WithinObj(s, v.ObjAt(i)) {
      RootIsNoSlot(v, r, i);
      assert v.RootOutsideObj(r, i);
    }
    forall q | 0 <= q < |v.roots| && RootSlot(v, q, s) ensures q == r {
      assert q < r ==> v.RootsDistinct(q, r);
      assert r < q ==> v.RootsDistinct(r, q);
    }
    if RootSlot(v, r, s) {
      assert LiveTarget(v, Target(v.roots[r].sort, At(v.mem, s)));
    }
  }

  lemma SlotCases(v: View, s: Addr) returns (i: int, r: int)
    requires s in Slots(v)
    ensures (0 <= i < v.Count() && LiveSlotIn(v, i, s) && r == -1)
      || (i == -1 && 0 <= r < |v.roots| && RootSlot(v, r, s))
  {
    if InLiveObject(v, s) {
      i :| 0 <= i < v.Count() && LiveSlotIn(v, i, s);
      r := -1;
    } else {
      i := -1;
      r :| 0 <= r < |v.roots| && RootSlot(v, r, s);
    }
  }

  // ----- the graph describes the heap ------------------------------------------------------

  ghost predicate NodeIs(g: Graph, v: View, i: int)
    requires 0 <= i < v.Count()
    requires |g.size| == |g.node| && |g.kind| == |g.node| && |g.dest| == |g.node|
    requires |g.node| == |Alive(v, v.Count())|
  {
    var k := Rank(v, i);
    && k < |g.node|
    && g.node[k] == v.ObjAt(i).at && g.size[k] == v.ObjAt(i).size
    && g.kind[k] == KindAt(v.mem, v.ObjAt(i).at) && g.dest[k] == DestOf(v, k)
  }

  ghost predicate SlotIs(g: Graph, v: View, s: Addr) {
    && (s in g.tgt <==> s in Slots(v))
    && (s in g.tgt ==> g.tgt[s] == Rank(v, TargetIndex(v, s)) && s in g.src && g.src[s] == SourceRank(v, s))
  }

  /** g is the graph of v's live objects and their slots. */
  ghost predicate Describes(g: Graph, v: View) {
    && |g.size| == |g.node| && |g.kind| == |g.node| && |g.dest| == |g.node|
    && |g.node| == |Alive(v, v.Count())|
    && g.tgt.Keys == g.src.Keys
    && (forall i {:trigger NodeIs(g, v, i)} :: 0 <= i < v.Count() && Live(v, i) ==> NodeIs(g, v, i))
    && (forall s {:trigger SlotIs(g, v, s)} :: SlotIs(g, v, s))
  }

  lemma GraphDescribes(v: View)
    ensures Describes(GraphOf(v), v)
  {
    var g := GraphOf(v);
    forall i | 0 <= i < v.Count() && Live(v, i) ensures NodeIs(g, v, i) {
      RankOfLive(v, i, v.Count());
    }
    assert g.tgt.Keys == Slots(v) && g.src.Keys == Slots(v);
    forall s ensures SlotIs(g, v, s) {
    }
  }

  /** The object behind a node. */
  ghost function Visited(v: View, k: int): (i: int)
    requires 0 <= k < |Alive(v, v.Count())|
    ensures 0 <= i < v.Count()
  {
    Alive(v, v.Count())[k]
  }

  lemma NodeAt(g: Graph, v: View, k: int)
    requires Describes(g, v) && 0 <= k < |g.node|
    ensures var i := Visited(v, k); Live(v, i) && Rank(v, i) == k && NodeIs(g, v, i)
  {
    AliveIncreases(v, v.Count());
    RankOfAlive(v, k, v.Count());
  }

  lemma NodesInBounds(g: Graph, v: View, j: int, k: int)
    requires Marked(v) && Describes(g, v) && 0 <= j < |g.node| && 0 <= k < |g.node|
    ensures 0 < g.node[k] && 3 <= g.size[k] && g.node[k] + g.size[k] <= |v.mem|
    ensures j != k ==> Apart(g.node[j], g.size[j], g.node[k], g.size[k])
  {
    NodeAt(g, v, j);
    NodeAt(g, v, k);
    assert v.ObjOk(Visited(v, k));
    NodesApart(v, Visited(v, j), Visited(v, k));
  }

  lemma RootOutsideNodes(g: Graph, v: View, r: int, k: int)
    requires Marked(v) && Describes(g, v) && 0 <= r < |v.roots| && 0 <= k < |g.node|
    ensures !(g.node[k] <= v.roots[r].at < g.node[k] + g.size[k])
  {
    NodeAt(g, v, k);
    assert v.RootOutsideObj(r, Visited(v, k));
  }

  lemma LiveSlotInGraph(g: Graph, v: View, i: int, s: Addr)
    requires Marked(v) && Describes(g, v) && 0 <= i < v.Count() && LiveSlotIn(v, i, s)
    ensures s in g.tgt && s in g.src && g.src[s] == Rank(v, i) && 0 <= g.tgt[s] < |g.node|
    ensures g.node[g.tgt[s]] == SlotTarget(v.mem, v.ObjAt(i).at, s - v.ObjAt(i).at)
    ensures AimsAt(v, i, s, TargetIndex(v, s)) && g.tgt[s] == Rank(v, TargetIndex(v, s))
  {
    hide IndexOf, TargetIndex, SourceRank, Slots, LiveTarget, Marked;
    ObjectSlot(v, i, s);
    assert SlotIs(g, v, s) && NodeIs(g, v, TargetIndex(v, s));
  }

  lemma RootSlotInGraph(g: Graph, v: View, r: int, s: Addr)
    requires Marked(v) && Describes(g, v) && s in g.tgt && 0 <= r < |v.roots| && RootSlot(v, r, s)
    ensures s in g.src && g.ValidSlot(s, |v.mem|) && g.src[s] == -1 && At(v.mem, s) == g.OldWord(s)
  {
    hide IndexOf, TargetIndex, SourceRank, Slots, LiveTarget;
    assert SlotIs(g, v, s);
    RootInGraph(v, r);
    assert NodeIs(g, v, TargetIndex(v, s));
    forall k | 0 <= k < |g.node| ensures !(g.node[k] <= s < g.node[k] + g.size[k]) {
      RootOutsideNodes(g, v, r, k);
    }
  }

  lemma SlotInGraph(g: Graph, v: View, s: Addr)
    requires Marked(v) && Describes(g, v) && s in g.tgt
    ensures g.ValidSlot(s, |v.mem|) && At(v.mem, s) == g.OldWord(s)
  {
    hide IndexOf, TargetIndex, SourceRank, Slots, LiveTarget, Marked;
    assert SlotIs(g, v, s);
    var i, r := SlotCases(v, s);
    if r < 0 {
      LiveSlotInGraph(g, v, i, s);
      ObjectSlot(v, i, s);
      assert NodeIs(g, v, i) && NodeIs(g, v, TargetIndex(v, s));
    } else {
      RootSlotInGraph(g, v, r, s);
    }
  }

  lemma GraphIsValid(g: Graph, v: View)
    requires Marked(v) && Describes(g, v)
    ensures g.Valid(|v.mem|)
    ensures forall s :: s in g.tgt ==> g.ValidSlot(s, |v.mem|) && At(v.mem, s) == g.OldWord(s)
  {
    forall k | 0 <= k < |g.node| ensures 0 < g.node[k] && 3 <= g.size[k] && g.node[k] + g.size[k] <= |v.mem| {
      NodesInBounds(g, v, k, k);
    }
    forall i, j | 0 <= i < j < |g.node| ensures Apart(g.node[i], g.size[i], g.node[j], g.size[j]) {
      NodesInBounds(g, v, i, j);
    }
    forall s | s in g.tgt ensures g.ValidSlot(s, |v.mem|) && At(v.mem, s) == g.OldWord(s) {
      SlotInGraph(g, v, s);
    }
  }

  /** Exactly the reference words of a live object are slots of the graph, with that object as
      their source. */
  lemma FieldInGraph(g: Graph, v: View, k: int, f: int)
    requires Marked(v) && Describes(g, v) && 0 <= k < |g.node| && 2 <= f < g.size[k]
    ensures var s := g.node[k] + f;
      if IsSlot(v.mem, g.node[k], f) then
        s in g.tgt && s in g.src && g.src[s] == k && 0 <= g.tgt[s] < |g.node|
          && g.node[g.tgt[s]] == SlotTarget(v.mem, g.node[k], f)
      else s !in g.tgt
  {
    hide Rank, IndexOf, TargetIndex, SourceRank, Slots, LiveTarget;
    NodeAt(g, v, k);
    var i := Visited(v, k);
    var s := g.node[k] + f;
    if IsSlot(v.mem, g.node[k], f) {
      LiveSlotInGraph(g, v, i, s);
    } else if s in g.tgt {
      assert v.ObjOk(i) && SlotIs(g, v, s);
      var j, r := SlotCases(v, s);
      if r >= 0 {
        RootOutsideNodes(g, v, r, k);
      } else {
        assert v.ObjOk(j);
        NodesApart(v, i, j);
      }
    }
  }

  lemma RootWordInGraph(g: Graph, v: View, r: int)
    requires Marked(v) && Describes(g, v) && 0 <= r < |v.roots|
    ensures var s := v.roots[r].at;
      if IsRef(v.roots[r].sort, At(v.mem, s)) then
        s in g.tgt && s in g.src && g.src[s] == -1 && 0 <= g.tgt[s] < |g.node|
          && g.node[g.tgt[s]] == Target(v.roots[r].sort, At(v.mem, s))
      else s !in g.tgt
  {
    RootInGraph(v, r);
    var s := v.roots[r].at;
    assert SlotIs(g, v, s);
    if RootSlot(v, r, s) {
      assert NodeIs(g, v, TargetIndex(v, s));
    }
  }
}
