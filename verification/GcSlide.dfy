/** Geometry of the slide: where the live objects go, and what moving one of them cannot hit. */
module GcSlide {
  import opened GcHeap
  import opened GcPlan
  import opened GcThreads
  import opened GcGraph

  /** The first |LiveObjs(v)| nodes are the live objects of the regions. */
  lemma RegionNode(g: Graph, v: View, k: int)
    requires Describes(g, v) && 0 <= k < |g.node|
    ensures var i := Visited(v, k);
      && (k < |LiveObjs(v)| <==> i < |v.objs|)
      && (k < |LiveObjs(v)| ==> LiveObjs(v)[k] == v.objs[i])
      && Live(v, i) && Rank(v, i) == k && NodeIs(g, v, i)
  {
    NodeAt(g, v, k);
    var i := Visited(v, k);
    AlivePrefix(v, |v.objs|, v.Count());
    if i < |v.objs| {
      RankOfLive(v, i, |v.objs|);
    }
  }

  lemma LiveObjsArePlaceable(v: View)
    requires v.Layout()
    ensures AllPlaceable(v.regions, LiveObjs(v))
  {
    var live := LiveObjs(v);
    var a := Alive(v, |v.objs|);
    AliveIncreases(v, |v.objs|);
    forall i, j | 0 <= i < j < |live| ensures Before(live[i], live[j]) {
      TilingIsOrdered(v.regions, v.objs, a[i], a[j]);
    }
    forall k | 0 <= k < |live| ensures Placeable(v.regions, live[k]) {
      assert InRegion(v.regions, v.objs[a[k]]);
    }
  }

  /** Where the k-th object is put. */
  ghost function PlaceOf(v: View, k: int): Place
    requires 0 <= k < |LiveObjs(v)|
  {
    Dest(v.regions, LiveObjs(v), k)
  }

  lemma DestFits(g: Graph, v: View, k: int)
    requires v.Layout() && Describes(g, v) && 0 <= k < |LiveObjs(v)|
    ensures k < |g.node| && Visited(v, k) < |v.objs|
    ensures var p := PlaceOf(v, k); var o := v.objs[Visited(v, k)];
      && PlaceOk(v.regions, p) && p.pos + g.size[k] <= v.regions[p.region].end
      && NotPast(p, o.region, o.at) && g.dest[k] == p.pos && g.node[k] == o.at && g.size[k] == o.size
      && InRegion(v.regions, o)
    ensures 0 < g.dest[k] && g.dest[k] + g.size[k] <= |v.mem|
  {
    AlivePrefix(v, |v.objs|, v.Count());
    RegionNode(g, v, k);
    LiveObjsArePlaceable(v);
    NeverOutOfSpace(v.regions, LiveObjs(v), k);
    assert InRegion(v.regions, v.objs[Visited(v, k)]);
  }

  lemma RegionCases(v: View, r: int, q: int)
    requires v.Layout() && 0 <= r < |v.regions| && 0 <= q < |v.regions|
    ensures r != q ==> RegionsApart(v.regions[r], v.regions[q])
  {
  }

  lemma PinnedNode(g: Graph, v: View, k: int, r: int)
    requires v.Layout() && Describes(g, v) && |LiveObjs(v)| <= k < |g.node| && 0 <= r < |v.regions|
    ensures g.dest[k] == g.node[k]
    ensures g.node[k] + g.size[k] <= v.regions[r].data || v.regions[r].end <= g.node[k]
  {
    RegionNode(g, v, k);
    assert v.OutsideRegions(Visited(v, k), r);
  }

  /** Moving object j does not touch object k, which is still to be visited. */
  lemma DestMissesLater(g: Graph, v: View, j: int, k: int)
    requires Marked(v) && Describes(g, v) && 0 <= j < k < |g.node|
    ensures Apart(g.dest[j], g.size[j], g.node[k], g.size[k])
  {
    if j < |LiveObjs(v)| {
      DestFits(g, v, j);
      if k < |LiveObjs(v)| {
        DestFits(g, v, k);
        LiveObjsArePlaceable(v);
        RegionNode(g, v, j);
        RegionNode(g, v, k);
        assert Before(LiveObjs(v)[j], LiveObjs(v)[k]);
        RegionCases(v, PlaceOf(v, j).region, v.objs[Visited(v, k)].region);
      } else {
        PinnedNode(g, v, k, PlaceOf(v, j).region);
      }
    } else {
      PinnedNode(g, v, j, 0);
      NodesInBounds(g, v, j, k);
    }
  }

  /** New places do not overlap. */
  lemma DestsApart(g: Graph, v: View, j: int, k: int)
    requires Marked(v) && Describes(g, v) && 0 <= j < k < |g.node|
    ensures Apart(g.dest[j], g.size[j], g.dest[k], g.size[k])
  {
    if k < |LiveObjs(v)| {
      DestFits(g, v, j);
      DestFits(g, v, k);
      LiveObjsArePlaceable(v);
      DestOrdered(v.regions, LiveObjs(v), j, k);
      RegionNode(g, v, j);
      RegionCases(v, PlaceOf(v, j).region, PlaceOf(v, k).region);
    } else {
      PinnedNode(g, v, k, 0);
      DestMissesLater(g, v, j, k);
    }
  }

  /** Moving object k does not touch the objects the walker has not come to, dead ones included. */
  lemma DestMissesWalk(g: Graph, v: View, k: int, w: int)
    requires Marked(v) && Describes(g, v) && 0 <= k < |LiveObjs(v)|
    requires k < |g.node| && Visited(v, k) < w < |v.objs|
    ensures Apart(g.dest[k], g.size[k], v.objs[w].at, v.objs[w].size)
  {
    DestFits(g, v, k);
    TilingIsOrdered(v.regions, v.objs, Visited(v, k), w);
    assert InRegion(v.regions, v.objs[w]);
    RegionCases(v, PlaceOf(v, k).region, v.objs[w].region);
  }

  lemma DestMissesRoots(g: Graph, v: View, k: int, r: int)
    requires Marked(v) && Describes(g, v) && 0 <= k < |g.node| && 0 <= r < |v.roots|
    ensures !(g.dest[k] <= v.roots[r].at < g.dest[k] + g.size[k])
  {
    if k < |LiveObjs(v)| {
      DestFits(g, v, k);
      assert v.RootOutsideRegion(r, PlaceOf(v, k).region);
    } else {
      PinnedNode(g, v, k, 0);
      RootOutsideNodes(g, v, r, k);
    }
  }
}
