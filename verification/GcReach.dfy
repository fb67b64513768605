/** Reachability, and the memory in which exactly a given set of objects is marked. */
module GcReach {
  import opened GcMemory
  import opened GcHeap

  /** A slot of the object a refers to the object b. */
  ghost predicate Edge(m: Memory, a: Addr, b: Addr) {
    exists f :: IsSlot(m, a, f) && SlotTarget(m, a, f) == b
  }

  /** The object a root slot or the symbol pool refers to. */
  ghost predicate IsRootObject(v: View, a: Addr) {
    || a in v.symbols
    || exists i :: 0 <= i < |v.roots| && RootRefersTo(v, i, a)
  }

  ghost predicate RootRefersTo(v: View, i: int, a: Addr)
    requires 0 <= i < |v.roots|
  {
    var w := At(v.mem, v.roots[i].at);
    IsRef(v.roots[i].sort, w) && Target(v.roots[i].sort, w) == a
  }

  ghost predicate IsPath(v: View, p: seq<Addr>) {
    && 0 < |p|
    && IsRootObject(v, p[0])
    && (forall i :: 0 < i < |p| ==> PathStep(v.mem, p, i))
  }

  ghost predicate PathStep(m: Memory, p: seq<Addr>, i: nat)
    requires 0 < i < |p|
  {
    Edge(m, p[i - 1], p[i])
  }

  ghost predicate Reachable(v: View, a: Addr) {
    exists p :: IsPath(v, p) && p[|p| - 1] == a
  }

  lemma RootIsReachable(v: View, a: Addr)
    requires IsRootObject(v, a)
    ensures Reachable(v, a)
  {
    assert IsPath(v, [a]) && [a][|[a]| - 1] == a;
  }

  lemma EdgeIsReachable(v: View, a: Addr, b: Addr)
    requires Reachable(v, a) && Edge(v.mem, a, b)
    ensures Reachable(v, b)
  {
    var p :| IsPath(v, p) && p[|p| - 1] == a;
    var q := p + [b];
    forall i | 0 < i < |q| ensures PathStep(v.mem, q, i) {
      if i < |p| {
        assert PathStep(v.mem, p, i);
      }
    }
    assert IsPath(v, q) && q[|q| - 1] == b;
  }

  /** A set with the root objects that is closed under edges has every reachable object. */
  ghost predicate Closed(v: View, s: set<Addr>) {
    && (forall a :: IsRootObject(v, a) ==> a in s)
    && (forall a, b :: a in s && Edge(v.mem, a, b) ==> b in s)
  }

  lemma ReachableIsLeast(v: View, s: set<Addr>, a: Addr)
    requires Closed(v, s) && Reachable(v, a)
    ensures a in s
  {
    var p :| IsPath(v, p) && p[|p| - 1] == a;
    PathStaysInside(v, s, p, |p| - 1);
  }

  lemma {:induction false} PathStaysInside(v: View, s: set<Addr>, p: seq<Addr>, i: nat)
    requires Closed(v, s) && IsPath(v, p) && i < |p|
    ensures p[i] in s
  {
    if i > 0 {
      PathStaysInside(v, s, p, i - 1);
      assert PathStep(v.mem, p, i);
    }
  }

  ghost function Reach(v: View): set<Addr> {
    set a | a in v.Addresses() && Reachable(v, a)
  }

  /** The heap v with exactly the objects in s marked. */
  ghost function Painted(m: Memory, s: set<Addr>): (r: Memory)
    ensures |r| == |m|
    ensures forall a :: At(r, a) == if a - BITS in s && At(m, a).Bits? then Bits(At(m, a).kind, true) else At(m, a)
  {
    seq(|m|, a requires 0 <= a < |m| => if a - BITS in s && m[a].Bits? then Bits(m[a].kind, true) else m[a])
  }

  /** In a laid-out heap every edge from an object leads to an object. */
  lemma EdgeLeadsToObject(v: View, a: Addr, b: Addr)
    requires v.Layout() && a in v.Addresses() && Edge(v.mem, a, b)
    ensures b in v.Addresses()
  {
    var k :| 0 <= k < v.Count() && v.ObjAt(k).at == a;
    assert v.ObjResolves(k);
    var f :| IsSlot(v.mem, a, f) && SlotTarget(v.mem, a, f) == b;
    assert v.Resolves(SortOf(KindAt(v.mem, a), f), At(v.mem, a + f));
  }

  lemma RootIsObject(v: View, a: Addr)
    requires v.Layout() && IsRootObject(v, a)
    ensures a in v.Addresses()
  {
    if a in v.symbols {
      var i :| 0 <= i < |v.symbols| && v.symbols[i] == a;
      assert v.ObjAt(|v.objs| + |v.pinned| + i).at == a;
    } else {
      var i :| 0 <= i < |v.roots| && RootRefersTo(v, i, a);
      assert v.RootOk(i);
    }
  }
}
