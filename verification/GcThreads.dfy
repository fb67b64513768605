/** Threading, abstractly: a graph whose nodes are the objects in the order the collector visits
    them and whose edges are the slots.  Every node carries the chain of the slots that refer to
    it; a slot is untouched, threaded, or done (it holds its target's new address). */
module GcThreads {
  import opened GcMemory

  datatype Graph = Graph(
    node: seq<Addr>,      // the objects, in visiting order
    size: seq<int>,
    kind: seq<Kind>,
    dest: seq<Addr>,      // where each object goes
    tgt: map<Addr, int>,  // for every slot, the index of the object it refers to
    src: map<Addr, int>)  // for every slot, the index of the object it lies in; -1 for a root
  {
    ghost predicate Valid(bound: int) {
      && |size| == |node| && |kind| == |node| && |dest| == |node|
      && (forall k :: 0 <= k < |node| ==> 0 < node[k] && 3 <= size[k] && node[k] + size[k] <= bound)
      && (forall i, j :: 0 <= i < j < |node| ==> Apart(node[i], size[i], node[j], size[j]))
      && src.Keys == tgt.Keys
      && (forall s {:trigger ValidSlot(s, bound)} :: s in tgt ==> ValidSlot(s, bound))
    }

    ghost predicate ValidSlot(s: Addr, bound: int)
      requires s in tgt && s in src
      requires |size| == |node|
    {
      && 0 < s < bound
      && 0 <= tgt[s] < |node|
      && -1 <= src[s] < |node|
      && (src[s] >= 0 ==> node[src[s]] + 2 <= s < node[src[s]] + size[src[s]])
      && (src[s] < 0 ==> forall k :: 0 <= k < |node| ==> !(node[k] <= s < node[k] + size[k]))
    }

    // The word a slot held before the collection, and the one it gets.
    function OldWord(s: Addr): Word
      requires s in tgt && 0 <= tgt[s] < |node| && |kind| == |node|
    {
      Ptr(node[tgt[s]] + Bias(kind[tgt[s]]))
    }

    function NewWord(s: Addr): Word
      requires s in tgt && 0 <= tgt[s] < |dest| && |kind| == |dest|
    {
      Ptr(dest[tgt[s]] + Bias(kind[tgt[s]]))
    }

    // Slots in objects below lo have been moved away with their object.
    predicate Present(s: Addr, lo: int)
      requires s in src
    {
      src[s] < 0 || lo <= src[s]
    }
  }

  predicate Apart(a: Addr, n: int, b: Addr, k: int) {
    a + n <= b || b + k <= a
  }

  /** The chain of slots c hangs off the header of o. */
  ghost predicate IsChain(m: Memory, o: Addr, c: seq<Addr>) {
    && NoDuplicates(c)
    && At(m, o) == Link(c, 0)
    && (forall i :: 0 <= i < |c| ==> 0 < c[i])
    && (forall i :: 0 <= i < |c| ==> Linked(m, c, i))
  }

  ghost predicate ChainOf(g: Graph, m: Memory, k: int, c: seq<Addr>, threaded: set<Addr>)
    requires 0 <= k < |g.node|
  {
    && IsChain(m, g.node[k], c)
    && (forall i :: 0 <= i < |c| ==> c[i] in threaded && c[i] in g.tgt && g.tgt[c[i]] == k)
  }

  ghost predicate SlotOk(g: Graph, m: Memory, lo: int, s: Addr, chains: seq<seq<Addr>>,
                         threaded: set<Addr>, done: set<Addr>)
    requires g.Valid(|m|) && s in g.tgt && g.ValidSlot(s, |m|) && |chains| == |g.node|
  {
    if s in threaded then s !in done && g.Present(s, lo) && lo <= g.tgt[s] && s in chains[g.tgt[s]]
    else g.Present(s, lo) ==> At(m, s) == if s in done then g.NewWord(s) else g.OldWord(s)
  }

  /** The threading invariant. */
  ghost predicate Threads(g: Graph, m: Memory, lo: int, chains: seq<seq<Addr>>,
                          threaded: set<Addr>, done: set<Addr>)
  {
    && g.Valid(|m|)
    && |chains| == |g.node|
    && threaded <= g.tgt.Keys
    && done <= g.tgt.Keys
    && (forall s {:trigger SlotOk(g, m, lo, s, chains, threaded, done)} ::
        s in g.tgt ==> SlotOk(g, m, lo, s, chains, threaded, done))
    && (forall k {:trigger ChainOf(g, m, k, chains[k], threaded)} ::
        0 <= k < |g.node| && lo <= k ==> ChainOf(g, m, k, chains[k], threaded))
  }

  /** No slot is a header word. */
  lemma SlotsAreNotHeaders(g: Graph, bound: int, s: Addr, k: int)
    requires g.Valid(bound) && s in g.tgt && 0 <= k < |g.node|
    ensures s != g.node[k] && s != g.node[k] + BITS
  {
    assert g.ValidSlot(s, bound);
    if g.src[s] >= 0 && g.src[s] != k {
      if g.src[s] < k {
        assert Apart(g.node[g.src[s]], g.size[g.src[s]], g.node[k], g.size[k]);
      } else {
        assert Apart(g.node[k], g.size[k], g.node[g.src[s]], g.size[g.src[s]]);
      }
    }
  }

  lemma HeadersAreDistinct(g: Graph, bound: int, j: int, k: int)
    requires g.Valid(bound) && 0 <= j < |g.node| && 0 <= k < |g.node| && j != k
    ensures g.node[j] != g.node[k] && g.node[j] != g.node[k] + BITS
  {
    if j < k {
      assert Apart(g.node[j], g.size[j], g.node[k], g.size[k]);
    } else {
      assert Apart(g.node[k], g.size[k], g.node[j], g.size[j]);
    }
  }

  /** Writes that avoid the header and the slots of a chain leave the chain in place. */
  lemma ChainFrame(m: Memory, m': Memory, o: Addr, c: seq<Addr>)
    requires IsChain(m, o, c)
    requires At(m', o) == At(m, o)
    requires forall i :: 0 <= i < |c| ==> At(m', c[i]) == At(m, c[i])
    ensures IsChain(m', o, c)
  {
    forall i | 0 <= i < |c| ensures Linked(m', c, i) {
      assert Linked(m, c, i);
    }
  }

  /** thread_data on the slot s puts it at the front of its target's chain. */
  lemma ThreadingASlot(g: Graph, m: Memory, lo: int, chains: seq<seq<Addr>>,
                       threaded: set<Addr>, done: set<Addr>, s: Addr)
    requires Threads(g, m, lo, chains, threaded, done)
    requires s in g.tgt && s !in threaded && s !in done && g.Present(s, lo) && lo <= g.tgt[s]
    ensures g.ValidSlot(s, |m|)
    ensures var k := g.tgt[s]; var o := g.node[k];
      0 < s < |m| && 0 < o < |m| &&
      Threads(g, m[s := m[o]][o := Ptr(s)], lo, chains[k := [s] + chains[k]], threaded + {s}, done)
  {
    assert g.ValidSlot(s, |m|);
    var k := g.tgt[s];
    var o := g.node[k];
    SlotsAreNotHeaders(g, |m|, s, k);
    var m' := m[s := m[o]][o := Ptr(s)];
    var chains' := chains[k := [s] + chains[k]];
    var threaded' := threaded + {s};
    forall j | 0 <= j < |g.node| && lo <= j
      ensures ChainOf(g, m', j, chains'[j], threaded')
    {
      assert ChainOf(g, m, j, chains[j], threaded);
      if j != k {
        HeadersAreDistinct(g, |m|, j, k);
        SlotsAreNotHeaders(g, |m|, s, j);
        forall i | 0 <= i < |chains[j]| ensures At(m', chains[j][i]) == At(m, chains[j][i]) {
          SlotsAreNotHeaders(g, |m|, chains[j][i], k);
        }
        ChainFrame(m, m', g.node[j], chains[j]);
      } else {
        ThreadedChain(g, m, k, chains[k], threaded, s);
      }
    }
    forall t | t in g.tgt
      ensures SlotOk(g, m', lo, t, chains', threaded', done)
    {
      assert g.ValidSlot(t, |m|) && SlotOk(g, m, lo, t, chains, threaded, done);
      SlotsAreNotHeaders(g, |m|, t, k);
      if t in threaded {
        if g.tgt[t] == k {
          assert t in [s] + chains[k];
        }
      } else if t == s {
        assert chains'[k][0] == s;
      }
    }
  }

  lemma ThreadedChain(g: Graph, m: Memory, k: int, c: seq<Addr>, threaded: set<Addr>, s: Addr)
    requires g.Valid(|m|) && 0 <= k < |g.node| && ChainOf(g, m, k, c, threaded)
    requires s in g.tgt && g.tgt[s] == k && s !in threaded
    requires 0 < s < |m| && 0 < g.node[k] < |m|
    ensures ChainOf(g, m[s := m[g.node[k]]][g.node[k] := Ptr(s)], k, [s] + c, threaded + {s})
  {
    var o := g.node[k];
    var m' := m[s := m[o]][o := Ptr(s)];
    var c' := [s] + c;
    SlotsAreNotHeaders(g, |m|, s, k);
    forall i | 0 <= i < |c'| ensures Linked(m', c', i) {
      if i > 0 {
        assert Linked(m, c, i - 1);
        SlotsAreNotHeaders(g, |m|, c[i - 1], k);
      }
    }
  }

  /** The memory after the slots of c have all been given the word w. */
  function Resolved(m: Memory, c: seq<Addr>, w: Word): (r: Memory)
    ensures |r| == |m|
    ensures forall a :: 0 <= a < |m| ==> r[a] == if a in c then w else m[a]
  {
    seq(|m|, a requires 0 <= a < |m| => if a in c then w else m[a])
  }

  /** update() on node k: its chain is resolved and left empty. */
  lemma ResolvingAChain(g: Graph, m: Memory, lo: int, chains: seq<seq<Addr>>,
                        threaded: set<Addr>, done: set<Addr>, k: int, m': Memory)
    requires Threads(g, m, lo, chains, threaded, done)
    requires 0 <= k < |g.node| && lo <= k
    requires var o := g.node[k];
      |m'| == |m|
      && m' == Resolved(m, chains[k], Ptr(g.dest[k] + Bias(g.kind[k])))[o := Ptr(NULL)]
    ensures var now := set s | s in threaded && g.tgt[s] == k;
      Threads(g, m', lo, chains[k := []], threaded - now, done + now)
  {
    var o := g.node[k];
    var c := chains[k];
    var now := set s | s in threaded && g.tgt[s] == k;
    var chains' := chains[k := []];
    assert ChainOf(g, m, k, c, threaded);
    forall j | 0 <= j < |g.node| && lo <= j
      ensures ChainOf(g, m', j, chains'[j], threaded - now)
    {
      if j != k {
        assert ChainOf(g, m, j, chains[j], threaded);
        HeadersAreDistinct(g, |m|, j, k);
        if g.node[j] in c {
          var i :| 0 <= i < |c| && c[i] == g.node[j];
          SlotsAreNotHeaders(g, |m|, c[i], j);
        }
        forall i | 0 <= i < |chains[j]| ensures At(m', chains[j][i]) == At(m, chains[j][i]) {
          SlotsAreNotHeaders(g, |m|, chains[j][i], k);
        }
        ChainFrame(m, m', g.node[j], chains[j]);
      }
    }
    forall t | t in g.tgt
      ensures SlotOk(g, m', lo, t, chains', threaded - now, done + now)
    {
      assert SlotOk(g, m, lo, t, chains, threaded, done);
      assert g.ValidSlot(t, |m|);
      SlotsAreNotHeaders(g, |m|, t, k);
      if t in c {
        var i :| 0 <= i < |c| && c[i] == t;
        assert t in threaded && g.tgt[t] == k;
      }
    }
  }
}
