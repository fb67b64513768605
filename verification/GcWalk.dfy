/** RegionWalker and RegionAllocator. */
module GcWalk {
  import opened GcMemory
  import opened GcHeap
  import opened GcState
  import opened GcPlan

  /** The allocator rewrites the pos of regions the walker has left; from r on they agree. */
  ghost predicate AgreeFrom(a: seq<Region>, b: seq<Region>, r: int) {
    |a| == |b| && forall i :: 0 <= i < |a| && r <= i ==> a[i] == b[i]
  }

  class RegionWalker {
    var region: int   // -1 for no region
    var pos: Addr

    constructor ()
      ensures region == 0
    {
      region, pos := 0, NULL;
    }

    /** The walker is at object w, or off the heap. */
    ghost predicate Reached(objs: seq<Obj>, w: int)
      requires 0 <= w <= |objs|
      reads this
    {
      if w < |objs| then region == objs[w].region && pos == objs[w].at else region == -1
    }

    method Load(regions: seq<Region>, ghost objs: seq<Obj>) returns (more: bool)
      requires Tiling(regions, objs) && region == 0
      modifies this
      ensures more == (0 < |objs|) && Reached(objs, 0)
      ensures !more ==> pos == regions[|regions| - 1].data
    {
      pos := regions[region].data;
      if pos == regions[region].pos {
        more := StepRegion(regions, regions, objs, 0);
      } else {
        more := true;
      }
    }

    method StepRegion(regions: seq<Region>, ghost was: seq<Region>, ghost objs: seq<Obj>, ghost w: int)
      returns (more: bool)
      requires 0 <= region < |regions| && 0 <= w <= |objs| && AgreeFrom(regions, was, region)
      requires Leads(was, objs, region, was[region].pos, w)
      modifies this
      ensures more == (w < |objs|) && Reached(objs, w)
      ensures !more ==> pos == if old(region) + 1 < |regions| then regions[|regions| - 1].data else old(pos)
    {
      ghost var r := region;
      while true
        invariant 0 <= r <= region < |regions|
        invariant EmptyBetween(was, r, region + 1)
        invariant w < |objs| ==> region < objs[w].region
        invariant pos == if region == r then old(pos) else regions[region].data
        decreases |regions| - region
      {
        assert region + 1 >= |regions| ==> region == |regions| - 1;
        region := if region + 1 < |regions| then region + 1 else -1;
        if region == -1 {
          return false;
        }
        pos := regions[region].data;
        if pos != regions[region].pos {
          return true;
        }
      }
    }

    /** Follows a free block; region -1 ends the walk. */
    method Jump(target: Addr, to: int, ghost objs: seq<Obj>, ghost w: int) returns (more: bool)
      requires 0 <= w <= |objs| && (w < |objs| ==> 0 <= objs[w].region)
      requires if w < |objs| then target == objs[w].at && to == objs[w].region else to == -1
      modifies this
      ensures more == (w < |objs|) && (more ==> Reached(objs, w))
    {
      if to == -1 {
        return false;
      }
      region := to;
      pos := target;
      return true;
    }

    method Step(size: int, regions: seq<Region>, ghost was: seq<Region>, ghost objs: seq<Obj>, ghost w: int)
      returns (more: bool)
      requires Tiling(was, objs) && 0 <= w < |objs| && Reached(objs, w) && size == objs[w].size
      requires AgreeFrom(regions, was, region)
      modifies this
      ensures more == (w + 1 < |objs|) && Reached(objs, w + 1)
    {
      assert InRegion(was, objs[w]) && LeadsOn(was, objs, w);
      var next := pos + size;
      if next == regions[region].pos {
        more := StepRegion(regions, was, objs, w + 1);
      } else {
        pos := next;
        more := true;
      }
    }
  }

  // -----------------------------------------------------------------------------------------

  ghost predicate SameBounds(a: seq<Region>, b: seq<Region>) {
    |a| == |b| && forall r :: 0 <= r < |a| ==> a[r].data == b[r].data && a[r].end == b[r].end
  }

  /** The regions up to r, the last one filled up to p. */
  function ClosedAt(regions: seq<Region>, r: int, p: Addr): seq<Region>
    requires 0 <= r < |regions|
  {
    regions[..r] + [regions[r].(pos := p)]
  }

  ghost predicate Filled(regions: seq<Region>, r: int, p: Addr, moved: seq<Obj>) {
    && 0 <= r < |regions|
    && (forall q ::
        0 <= q <= r ==>
          ClosedAt(regions, r, p)[q].data <= ClosedAt(regions, r, p)[q].pos
            <= ClosedAt(regions, r, p)[q].end)
    && Tiling(ClosedAt(regions, r, p), moved)
  }

  lemma FilledToNext(regions: seq<Region>, r: int, p: Addr, moved: seq<Obj>)
    requires Filled(regions, r, p, moved) && r + 1 < |regions| && regions[r + 1].data <= regions[r + 1].end
    ensures Filled(regions[r := regions[r].(pos := p)], r + 1, regions[r + 1].data, moved)
  {
    var a := ClosedAt(regions, r, p);
    var next := regions[r + 1].(pos := regions[r + 1].data);
    TilingAppend(a, moved, next);
    assert ClosedAt(regions[r := regions[r].(pos := p)], r + 1, regions[r + 1].data) == a + [next];
  }

  lemma FilledMore(regions: seq<Region>, r: int, p: Addr, moved: seq<Obj>, size: int)
    requires Filled(regions, r, p, moved) && FREE_BLOCK <= size && p + size <= regions[r].end
    ensures Filled(regions, r, p + size, moved + [Obj(r, p, size)])
  {
    var a := ClosedAt(regions, r, p);
    forall k | 0 <= k < |moved| ensures moved[k].region <= r {
      assert InRegion(a, moved[k]);
    }
    TilingGrows(a, moved, r, size, |moved|);
    assert Inserted(moved, |moved|, Obj(r, p, size)) == moved + [Obj(r, p, size)];
    assert Grown(a, r, size) == ClosedAt(regions, r, p + size);
  }

  class RegionAllocator {
    const backward: bool
    var region: int
    var pos: Addr

    constructor (regions: seq<Region>, backward: bool)
      requires 0 < |regions|
      ensures this.backward == backward && region == 0 && pos == regions[0].data
    {
      this.backward := backward;
      region, pos := 0, regions[0].data;
    }

    /** Goes on to the next region; the backward allocator closes the one it leaves. */
    method Leave(h: Heap, ghost was: seq<Region>, ghost moved: seq<Obj>)
      requires SameBounds(h.regions, was) && Geometry(|h.mem|, was)
      requires 0 <= region && region + 1 < |was|
      requires backward ==> Filled(h.regions, region, pos, moved)
      modifies this, h`regions
      ensures region == old(region) + 1 && pos == was[region].data && PlaceOk(was, Place(region, pos))
      ensures SameBounds(h.regions, was) && (!backward ==> h.regions == old(h.regions))
      ensures AgreeFrom(h.regions, old(h.regions), region)
      ensures backward ==> Filled(h.regions, region, pos, moved)
    {
      if backward {
        FilledToNext(h.regions, region, pos, moved);
        h.regions := h.regions[region := h.regions[region].(pos := pos)];
      }
      region := region + 1;
      pos := h.regions[region].data;
    }

    /** allocate: the first place with room; the backward allocator closes the regions it leaves. */
    method Allocate(h: Heap, size: int, ghost was: seq<Region>, ghost moved: seq<Obj>) returns (result: Addr)
      requires SameBounds(h.regions, was) && Geometry(|h.mem|, was) && FREE_BLOCK <= size
      requires PlaceOk(was, Place(region, pos))
      requires Fit(was, Place(region, pos), size).region < |was|   // never "Ran out of free space!"
      requires backward ==> Filled(h.regions, region, pos, moved)
      modifies this, h`regions
      ensures Place(region, result) == Fit(was, old(Place(region, pos)), size) && pos == result + size
      ensures PlaceOk(was, Place(region, pos)) && old(region) <= region
      ensures SameBounds(h.regions, was) && (!backward ==> h.regions == old(h.regions))
      ensures AgreeFrom(h.regions, old(h.regions), region)
      ensures backward ==> Filled(h.regions, region, pos, moved + [Obj(region, result, size)])
    {
      hide Filled, Geometry;
      while pos + size > h.regions[region].end
        invariant SameBounds(h.regions, was) && PlaceOk(was, Place(region, pos)) && old(region) <= region
        invariant Fit(was, Place(region, pos), size) == old(Fit(was, Place(region, pos), size))
        invariant !backward ==> h.regions == old(h.regions)
        invariant AgreeFrom(h.regions, old(h.regions), region)
        invariant backward ==> Filled(h.regions, region, pos, moved)
        decreases |was| - region
      {
        Leave(h, was, moved);
      }
      result := pos;
      if backward {
        FilledMore(h.regions, region, pos, moved, size);
      }
      pos := pos + size;
    }
  }
}
