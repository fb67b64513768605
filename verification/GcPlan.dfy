/** Where RegionAllocator puts the live objects, and why that is always possible: the free place
    never overtakes the object being placed, in walk order. */
module GcPlan {
  import opened GcMemory
  import opened GcHeap

  ghost predicate Ordered(objs: seq<Obj>) {
    forall i, j :: 0 <= i < j < |objs| ==> Before(objs[i], objs[j])
  }

  // -----------------------------------------------------------------------------------------

  /** A free place: an address of a region. */
  datatype Place = Place(region: int, pos: Addr)

  ghost predicate PlaceOk(regions: seq<Region>, p: Place) {
    0 <= p.region < |regions| && regions[p.region].data <= p.pos <= regions[p.region].end
  }

  /** The first place from p on with room for size words; its region is |regions| if there is none. */
  function Fit(regions: seq<Region>, p: Place, size: int): Place
    decreases |regions| - p.region
  {
    if !(0 <= p.region < |regions|) then Place(|regions|, NULL)
    else if p.pos + size <= regions[p.region].end then p
    else if p.region + 1 == |regions| then Place(|regions|, NULL)
    else Fit(regions, Place(p.region + 1, regions[p.region + 1].data), size)
  }

  /** The free place once the first k objects have been placed. */
  function FreeAt(regions: seq<Region>, live: seq<Obj>, k: int): Place
    requires 0 <= k <= |live|
  {
    if |regions| == 0 then Place(0, NULL)
    else if k == 0 then Place(0, regions[0].data)
    else
      var q := Fit(regions, FreeAt(regions, live, k - 1), live[k - 1].size);
      Place(q.region, q.pos + live[k - 1].size)
  }

  /** Where the k-th live object goes. */
  function Dest(regions: seq<Region>, live: seq<Obj>, k: int): Place
    requires 0 <= k < |live|
  {
    Fit(regions, FreeAt(regions, live, k), live[k].size)
  }

  predicate NotPast(p: Place, region: int, at: Addr) {
    p.region < region || (p.region == region && p.pos <= at)
  }

  /** What holds before every object of a tiling: it lies in its region with room to spare. */
  ghost predicate Placeable(regions: seq<Region>, o: Obj) {
    && 0 <= o.region < |regions|
    && FREE_BLOCK <= o.size
    && regions[o.region].data <= o.at
    && o.at + o.size <= regions[o.region].end
  }

  lemma {:induction false} FitNotPast(regions: seq<Region>, p: Place, o: Obj)
    requires PlaceOk(regions, p) && Placeable(regions, o) && NotPast(p, o.region, o.at)
    requires forall r :: 0 <= r < |regions| ==> regions[r].data <= regions[r].end
    ensures var q := Fit(regions, p, o.size);
      && PlaceOk(regions, q) && q.pos + o.size <= regions[q.region].end
      && NotPast(q, o.region, o.at) && NotPast(p, q.region, q.pos)
    decreases |regions| - p.region
  {
    if p.pos + o.size > regions[p.region].end {
      FitNotPast(regions, Place(p.region + 1, regions[p.region + 1].data), o);
    }
  }

  ghost predicate AllPlaceable(regions: seq<Region>, live: seq<Obj>) {
    && |regions| > 0
    && (forall r :: 0 <= r < |regions| ==> regions[r].data <= regions[r].end)
    && (forall k :: 0 <= k < |live| ==> Placeable(regions, live[k]))
    && Ordered(live)
  }

  /** The free place never passes the object being placed, so there is always room for it. */
  lemma {:induction false} NeverOutOfSpace(regions: seq<Region>, live: seq<Obj>, k: int)
    requires AllPlaceable(regions, live) && 0 <= k <= |live|
    ensures PlaceOk(regions, FreeAt(regions, live, k))
    ensures k < |live| ==>
      var q := Dest(regions, live, k);
      && NotPast(FreeAt(regions, live, k), live[k].region, live[k].at)
      && PlaceOk(regions, q) && q.pos + live[k].size <= regions[q.region].end
      && NotPast(q, live[k].region, live[k].at)
      && NotPast(FreeAt(regions, live, k), q.region, q.pos)
  {
    if k == 0 {
      if 0 < |live| {
        assert Placeable(regions, live[0]);
      }
    } else {
      NeverOutOfSpace(regions, live, k - 1);
      if k < |live| {
        assert Before(live[k - 1], live[k]);
        assert Placeable(regions, live[k]);
      }
    }
    if k < |live| {
      FitNotPast(regions, FreeAt(regions, live, k), live[k]);
    }
  }

  /** Sliding keeps the order: later objects go to later places. */
  lemma {:induction false} DestOrdered(regions: seq<Region>, live: seq<Obj>, j: int, k: int)
    requires AllPlaceable(regions, live) && 0 <= j < k < |live|
    ensures var p := Dest(regions, live, j);
      NotPast(Place(p.region, p.pos + live[j].size), Dest(regions, live, k).region, Dest(regions, live, k).pos)
    decreases k
  {
    NeverOutOfSpace(regions, live, k);
    NeverOutOfSpace(regions, live, j);
    if j < k - 1 {
      NeverOutOfSpace(regions, live, k - 1);
      DestOrdered(regions, live, j, k - 1);
    }
  }

  // -----------------------------------------------------------------------------------------

  function Grown(regions: seq<Region>, c: int, size: int): seq<Region>
    requires 0 <= c < |regions|
  {
    regions[c := regions[c].(pos := regions[c].pos + size)]
  }

  function Inserted(objs: seq<Obj>, i: int, o: Obj): seq<Obj>
    requires 0 <= i <= |objs|
  {
    objs[..i] + [o] + objs[i..]
  }

  /** Bump allocation at the end of region c keeps the tiling. */
  lemma TilingGrows(regions: seq<Region>, objs: seq<Obj>, c: int, size: int, i: int)
    requires Tiling(regions, objs) && 0 <= c < |regions| && FREE_BLOCK <= size
    requires forall r :: 0 <= r < |regions| ==> regions[r].data <= regions[r].pos
    requires 0 <= i <= |objs|
    requires forall k :: 0 <= k < |objs| ==> (objs[k].region <= c <==> k < i)
    ensures Tiling(Grown(regions, c, size), Inserted(objs, i, Obj(c, regions[c].pos, size)))
  {
    var regions' := Grown(regions, c, size);
    var o := Obj(c, regions[c].pos, size);
    var objs' := Inserted(objs, i, o);
    assert objs'[i] == o;
    forall k | 0 <= k < |objs'| ensures InRegion(regions', objs'[k]) {
      if k < i {
        assert objs'[k] == objs[k];
      } else if i < k {
        assert objs'[k] == objs[k - 1];
      }
    }
    GrownLeads(regions, objs, c, size, i, 0, regions[0].data, 0);
    forall k | 0 <= k < |objs'| ensures LeadsOn(regions', objs', k) {
      GrownLeadsOn(regions, objs, c, size, i, k);
    }
  }

  lemma GrownLeadsOn(regions: seq<Region>, objs: seq<Obj>, c: int, size: int, i: int, k: int)
    requires Tiling(regions, objs) && 0 <= c < |regions| && FREE_BLOCK <= size
    requires forall r :: 0 <= r < |regions| ==> regions[r].data <= regions[r].pos
    requires 0 <= i <= |objs| && 0 <= k <= |objs|
    requires forall k :: 0 <= k < |objs| ==> (objs[k].region <= c <==> k < i)
    ensures var objs' := Inserted(objs, i, Obj(c, regions[c].pos, size));
      0 <= objs'[k].region < |regions| && LeadsOn(Grown(regions, c, size), objs', k)
  {
    var objs' := Inserted(objs, i, Obj(c, regions[c].pos, size));
    if k < i {
      assert objs'[k] == objs[k];
      assert LeadsOn(regions, objs, k);
      GrownLeads(regions, objs, c, size, i, objs[k].region, objs[k].at + objs[k].size, k + 1);
    } else if k == i {
      assert objs'[i] == Obj(c, regions[c].pos, size);
      if i == 0 {
        GrownNext(regions, objs, c, size, i, 0, regions[0].data);
      } else {
        assert LeadsOn(regions, objs, i - 1);
        GrownNext(regions, objs, c, size, i, objs[i - 1].region, objs[i - 1].at + objs[i - 1].size);
      }
    } else {
      assert objs'[k] == objs[k - 1];
      assert LeadsOn(regions, objs, k - 1);
    }
  }

  lemma GrownLeads(regions: seq<Region>, objs: seq<Obj>, c: int, size: int, i: int, r: int, p: Addr, k: int)
    requires 0 <= r <= c < |regions| && FREE_BLOCK <= size
    requires 0 <= k <= i <= |objs|
    requires forall k :: 0 <= k < |objs| ==> (objs[k].region <= c <==> k < i)
    requires forall q :: 0 <= q < |regions| ==> regions[q].data <= regions[q].pos
    requires p <= regions[r].pos
    requires Leads(regions, objs, r, p, k)
    ensures Leads(Grown(regions, c, size), Inserted(objs, i, Obj(c, regions[c].pos, size)), r, p, k)
  {
    var objs' := Inserted(objs, i, Obj(c, regions[c].pos, size));
    if k < i {
      assert objs'[k] == objs[k];
    } else {
      assert objs'[i] == Obj(c, regions[c].pos, size);
    }
  }

  lemma GrownNext(regions: seq<Region>, objs: seq<Obj>, c: int, size: int, i: int, r: int, p: Addr)
    requires 0 <= r <= c < |regions| && FREE_BLOCK <= size
    requires 0 <= i <= |objs|
    requires forall k :: 0 <= k < |objs| ==> (objs[k].region <= c <==> k < i)
    requires forall q :: 0 <= q < |regions| ==> regions[q].data <= regions[q].pos
    requires Leads(regions, objs, r, p, i)
    ensures Leads(Grown(regions, c, size), Inserted(objs, i, Obj(c, regions[c].pos, size)), c, regions[c].pos + size,
                  i + 1)
  {
    var objs' := Inserted(objs, i, Obj(c, regions[c].pos, size));
    if i < |objs| {
      assert objs'[i + 1] == objs[i];
      assert objs[i].region > c;
    }
  }

  /** A new region without objects at the end of the list. */
  lemma TilingAppend(regions: seq<Region>, objs: seq<Obj>, region: Region)
    requires Tiling(regions, objs) && region.data == region.pos
    ensures Tiling(regions + [region], objs)
  {
    var regions' := regions + [region];
    assert Leads(regions', objs, 0, regions'[0].data, 0);
    forall k | 0 <= k < |objs| ensures LeadsOn(regions', objs, k) {
      assert LeadsOn(regions, objs, k);
    }
  }
}
