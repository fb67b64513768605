/** Programs: every run of allocations, loads, stores and collections keeps the heap well formed. */
module GcRun {
  import opened GcMemory
  import opened GcHeap
  import opened GcState
  import opened GcGraph
  import opened GcBackward
  import opened GcCollect
  import opened GcAlloc

  /** A word of the program's: a root slot, or a field of an object. */
  ghost predicate Writable(v: View, a: Addr, s: Sort) {
    || (exists i :: 0 <= i < |v.roots| && v.roots[i] == Root(a, s))
    || (exists k :: 0 <= k < v.Count() && FieldAt(v, k, a, s))
  }

  ghost predicate FieldAt(v: View, k: int, a: Addr, s: Sort)
    requires 0 <= k < v.Count()
  {
    var o := v.ObjAt(k);
    2 <= a - o.at < o.size && s == SortOf(KindAt(v.mem, o.at), a - o.at) && s != Raw
  }

  lemma FieldIsNoHeader(v: View, k: int, a: Addr, s: Sort, j: int)
    requires v.Valid() && 0 <= k < v.Count() && 0 <= j < v.Count() && FieldAt(v, k, a, s)
    ensures a != v.ObjAt(j).at && a != v.ObjAt(j).at + BITS
      && (a == v.ObjAt(j).at + EXTRA ==> KindAt(v.mem, v.ObjAt(j).at).Record?)
    ensures WithinObj(a, v.ObjAt(j)) ==> j == k
    ensures 0 < a < |v.mem|
  {
    assert v.ObjOk(k) && v.ObjOk(j);
    NodesApart(v, k, j);
  }

  lemma WriteMissesHeaders(v: View, a: Addr, s: Sort, j: int)
    requires v.Valid() && Writable(v, a, s) && 0 <= j < v.Count()
    ensures 0 < a < |v.mem|
    ensures a != v.ObjAt(j).at && a != v.ObjAt(j).at + BITS
      && (a == v.ObjAt(j).at + EXTRA ==> KindAt(v.mem, v.ObjAt(j).at).Record?)
  {
    assert v.ObjOk(j);
    if k :| 0 <= k < v.Count() && FieldAt(v, k, a, s) {
      FieldIsNoHeader(v, k, a, s, j);
    } else {
      var i :| 0 <= i < |v.roots| && v.roots[i] == Root(a, s);
      assert v.RootOk(i) && v.RootOutsideObj(i, j);
    }
  }

  lemma WriteInBounds(v: View, a: Addr, s: Sort)
    requires v.Valid() && Writable(v, a, s)
    ensures 0 < a < |v.mem|
  {
    if k :| 0 <= k < v.Count() && FieldAt(v, k, a, s) {
      FieldIsNoHeader(v, k, a, s, k);
    } else {
      var i :| 0 <= i < |v.roots| && v.roots[i] == Root(a, s);
      assert v.RootOk(i);
    }
  }

  ghost function Written(v: View, a: Addr, w: Word): View
    requires 0 <= a < |v.mem|
  {
    v.(mem := v.mem[a := w])
  }

  lemma WrittenObject(v: View, a: Addr, s: Sort, w: Word, j: int)
    requires v.Valid() && Writable(v, a, s) && 0 <= j < v.Count()
    ensures 0 < a < |v.mem|
    ensures var c := Written(v, a, w);
      && c.Count() == v.Count() && c.ObjAt(j) == v.ObjAt(j) && c.ObjOk(j) && c.ObjIdle(j)
      && KindAt(c.mem, c.ObjAt(j).at) == KindAt(v.mem, v.ObjAt(j).at)
      && SizeAt(c.mem, c.ObjAt(j).at) == SizeAt(v.mem, v.ObjAt(j).at)
  {
    WriteMissesHeaders(v, a, s, j);
    assert v.ObjOk(j) && v.ObjIdle(j);
    var c := Written(v, a, w);
    var o := v.ObjAt(j).at;
    assert At(c.mem, o) == At(v.mem, o) && At(c.mem, o + BITS) == At(v.mem, o + BITS);
    assert !KindAt(v.mem, o).Record? ==> At(c.mem, o + EXTRA) == At(v.mem, o + EXTRA);
  }

  lemma WrittenResolves(v: View, a: Addr, s: Sort, w: Word, t: Sort, x: Word)
    requires v.Valid() && Writable(v, a, s) && v.Resolves(t, x)
    ensures 0 < a < |v.mem| && Written(v, a, w).Resolves(t, x)
  {
    WriteInBounds(v, a, s);
    var c := Written(v, a, w);
    if IsRef(t, x) {
      var j :| 0 <= j < v.Count() && v.ObjAt(j).at == Target(t, x);
      WrittenObject(v, a, s, w, j);
      assert c.ObjAt(j).at == Target(t, x);
    }
  }

  lemma WrittenFields(v: View, a: Addr, s: Sort, w: Word, j: int)
    requires v.Valid() && Writable(v, a, s) && v.Resolves(s, w) && 0 <= j < v.Count()
    ensures 0 < a < |v.mem| && Written(v, a, w).Count() == v.Count() && Written(v, a, w).ObjResolves(j)
  {
    WrittenObject(v, a, s, w, j);
    var c := Written(v, a, w);
    var o := v.ObjAt(j).at;
    forall f | IsSlot(c.mem, o, f) ensures c.Resolves(SortOf(KindAt(c.mem, o), f), At(c.mem, o + f)) {
      if o + f == a {
        SameField(v, a, s, j, f);
        WrittenResolves(v, a, s, w, s, w);
      } else {
        assert IsSlot(v.mem, o, f) && v.ObjResolves(j);
        WrittenResolves(v, a, s, w, SortOf(KindAt(v.mem, o), f), At(v.mem, o + f));
      }
    }
  }

  lemma SameField(v: View, a: Addr, s: Sort, j: int, f: int)
    requires v.Valid() && Writable(v, a, s) && 0 <= j < v.Count() && v.ObjAt(j).at + f == a && 2 <= f < v.ObjAt(j).size
    ensures SortOf(KindAt(v.mem, v.ObjAt(j).at), f) == s
  {
    forall i | 0 <= i < |v.roots| ensures v.roots[i].at != a {
      assert v.RootOutsideObj(i, j);
    }
    var k :| 0 <= k < v.Count() && FieldAt(v, k, a, s);
    FieldIsNoHeader(v, k, a, s, j);
  }

  lemma WrittenRoot(v: View, a: Addr, s: Sort, w: Word, i: int)
    requires v.Valid() && Writable(v, a, s) && v.Resolves(s, w) && 0 <= i < |v.roots|
    ensures 0 < a < |v.mem| && Written(v, a, w).RootOk(i)
  {
    WriteInBounds(v, a, s);
    assert v.RootOk(i);
    if v.roots[i].at == a {
      forall k | 0 <= k < v.Count() ensures !FieldAt(v, k, a, s) {
        assert v.RootOutsideObj(i, k);
      }
      var j :| 0 <= j < |v.roots| && v.roots[j] == Root(a, s);
      assert j < i ==> v.RootsDistinct(j, i);
      assert i < j ==> v.RootsDistinct(i, j);
      WrittenResolves(v, a, s, w, s, w);
    } else {
      WrittenResolves(v, a, s, w, v.roots[i].sort, At(v.mem, v.roots[i].at));
    }
  }

  /** Storing a valid reference, or no reference, keeps the heap well formed. */
  lemma WritingKeepsValid(v: View, a: Addr, s: Sort, w: Word)
    requires v.Valid() && Writable(v, a, s) && v.Resolves(s, w)
    ensures 0 < a < |v.mem| && Written(v, a, w).Valid()
  {
    WriteInBounds(v, a, s);
    var c := Written(v, a, w);
    forall j | 0 <= j < c.Count() ensures c.ObjOk(j) && c.ObjIdle(j) && c.ObjResolves(j) {
      WrittenObject(v, a, s, w, j);
      WrittenFields(v, a, s, w, j);
    }
    forall i, j | 0 <= i < j < c.Count() ensures c.Separate(i, j) {
      WrittenObject(v, a, s, w, i);
      WrittenObject(v, a, s, w, j);
      assert v.Separate(i, j);
    }
    forall k, r | |c.objs| <= k < c.Count() && 0 <= r < |c.regions| ensures c.OutsideRegions(k, r) {
      WrittenObject(v, a, s, w, k);
      assert v.OutsideRegions(k, r);
    }
    forall i | 0 <= i < |c.roots| ensures c.RootOk(i) {
      WrittenRoot(v, a, s, w, i);
    }
    forall i, j | 0 <= i < j < |c.roots| ensures c.RootsDistinct(i, j) {
      assert v.RootsDistinct(i, j);
    }
    forall i, k | 0 <= i < |c.roots| && 0 <= k < c.Count() ensures c.RootOutsideObj(i, k) {
      WrittenObject(v, a, s, w, k);
      assert v.RootOutsideObj(i, k);
    }
    forall i, r | 0 <= i < |c.roots| && 0 <= r < |c.regions| ensures c.RootOutsideRegion(i, r) {
      assert v.RootOutsideRegion(i, r);
    }
  }

  // ----- programs --------------------------------------------------------------------------

  /** What a program does: it reaches objects through its roots only. */
  datatype Op =
    // a new object, referred to by a root
    | Allocate(root: nat, home: Home, kind: Kind, n: nat, os: Addr)
    // a root gets a field of a root's object
    | Load(into: nat, from: nat, field: int)
    // a field of a root's object gets a root
    | Store(holder: nat, field: int, from: nat)
    | Collect

  predicate RootDenotes(s: Snapshot, i: nat) {
    i < |s.roots| && IsRef(s.roots[i].sort, At(s.mem, s.roots[i].at))
  }

  function RootObject(s: Snapshot, i: nat): Addr
    requires RootDenotes(s, i)
  {
    Target(s.roots[i].sort, At(s.mem, s.roots[i].at))
  }

  /** Types agree and the platform can deliver; a collection needs something to walk. */
  predicate Enabled(s: Snapshot, op: Op)
    requires s.current < |s.regions|
  {
    match op
    case Allocate(root, home, kind, n, os) =>
      && root < |s.roots| && s.roots[root].sort != Raw && (s.roots[root].sort == CharData <==> kind == Block)
      && CanAllocate(s, home, kind, n, os)
    case Load(into, from, field) =>
      && into < |s.roots| && RootDenotes(s, from)
      && 2 <= field < SizeAt(s.mem, RootObject(s, from))
      && SortOf(KindAt(s.mem, RootObject(s, from)), field) == s.roots[into].sort
    case Store(holder, field, from) =>
      && from < |s.roots| && RootDenotes(s, holder) && s.roots[from].sort != Raw
      && 2 <= field < SizeAt(s.mem, RootObject(s, holder))
      && SortOf(KindAt(s.mem, RootObject(s, holder)), field) == s.roots[from].sort
    case Collect =>
      (exists r :: 0 <= r < |s.regions| && s.regions[r].data != s.regions[r].pos) || WalkEnds(s.mem, s.regions)
  }

  lemma RootIsWritable(v: View, i: int)
    requires 0 <= i < |v.roots|
    ensures Writable(v, v.roots[i].at, v.roots[i].sort)
  {
  }

  /** The object a root refers to, in a well-formed heap. */
  lemma RootReaches(v: View, i: int) returns (k: int)
    requires v.Valid() && 0 <= i < |v.roots| && IsRef(v.roots[i].sort, At(v.mem, v.roots[i].at))
    ensures 0 <= k < v.Count() && v.ObjAt(k).at == Target(v.roots[i].sort, At(v.mem, v.roots[i].at))
    ensures v.ObjAt(k).size == SizeAt(v.mem, v.ObjAt(k).at) && 0 < v.ObjAt(k).at
      && v.ObjAt(k).at + v.ObjAt(k).size <= |v.mem|
  {
    assert v.RootOk(i);
    k :| 0 <= k < v.Count() && v.ObjAt(k).at == Target(v.roots[i].sort, At(v.mem, v.roots[i].at));
    assert v.ObjOk(k);
  }

  lemma FieldResolves(v: View, k: int, f: int)
    requires v.Valid() && 0 <= k < v.Count() && 2 <= f < v.ObjAt(k).size
    ensures v.Resolves(SortOf(KindAt(v.mem, v.ObjAt(k).at), f), At(v.mem, v.ObjAt(k).at + f))
  {
    assert v.ObjOk(k) && v.ObjResolves(k);
    assert IsSlot(v.mem, v.ObjAt(k).at, f)
      || !IsRef(SortOf(KindAt(v.mem, v.ObjAt(k).at), f), At(v.mem, v.ObjAt(k).at + f));
  }

  method WriteWord(h: Heap, a: Addr, w: Word, ghost s: Sort)
    requires Sound(h) && Writable(h.View(), a, s) && h.View().Resolves(s, w)
    modifies h`mem
    ensures Sound(h) && 0 < a < |old(h.mem)| && h.mem == old(h.mem)[a := w]
  {
    WritingKeepsValid(h.View(), a, s, w);
    h.mem := h.mem[a := w];
  }

  lemma NewObjectResolves(v: View, c: View, i: int, r: int, obj: Addr, size: int, s: Sort, kind: Kind)
    requires Added(v, c, i, Obj(r, obj, size)) && KindAt(c.mem, obj) == kind && (s == CharData <==> kind == Block)
    ensures c.Resolves(s, Ptr(obj + Bias(kind)))
  {
    assert Shifted(v, c, i, Obj(r, obj, size), i);
    assert c.ObjAt(i).at == obj;
  }

  /** A moment of a run: the state, and the objects the regions hold. */
  ghost predicate Goes(s: Snapshot, objs: seq<Obj>) {
    ViewOf(s, objs).Valid() && s.current < |s.regions| && 1 <= s.pages
  }

  ghost function ViewOf(s: Snapshot, objs: seq<Obj>): View {
    GcHeap.View.View(s.mem, s.regions, objs, s.pinned, s.symbols, s.roots)
  }

  datatype Moment = Moment(state: Snapshot, objs: seq<Obj>)

  ghost function Here(h: Heap): Moment
    reads h
  {
    Moment(h.Now(), h.objs)
  }

  /** c is s with w at a. */
  ghost predicate Wrote(s: Snapshot, c: Snapshot, a: Addr, w: Word) {
    0 < a < |s.mem| && c == s.(mem := s.mem[a := w])
  }

  /** A new object where the allocator puts it, and then a root that refers to it. */
  ghost predicate Allocated(m: Moment, c: Moment, root: nat, home: Home, kind: Kind, n: nat, os: Addr, between: Moment,
                            i: int, o: Obj) {
    && Added(ViewOf(m.state, m.objs), ViewOf(between.state, between.objs), i, o)
    && o.size == SizeOf(kind, n) && KindAt(between.state.mem, o.at) == kind
    && m.state.current < |m.state.regions| && Placed(m.state, between.state, home, kind, n, os, o.at)
    && root < |m.state.roots| && c.objs == between.objs
    && Wrote(between.state, c.state, m.state.roots[root].at, Ptr(o.at + Bias(kind)))
  }

  /** The heap is its reachable part, slid together; allocation goes on in the last region. */
  ghost predicate Collected(m: Moment, c: Moment) {
    && (exists ren :: Preserved(ViewOf(m.state, m.objs), ViewOf(c.state, c.objs), ren))
    && 0 < |c.state.regions| && c.state.current == |c.state.regions| - 1
    && c.state.pages == PagesOf(c.state.regions[c.state.current])
  }

  /** What an enabled operation makes of a heap. */
  ghost predicate Stepped(m: Moment, c: Moment, op: Op)
    requires m.state.current < |m.state.regions| && Enabled(m.state, op)
  {
    var s := m.state;
    match op
    case Allocate(root, home, kind, n, os) =>
      exists between, i, o :: Allocated(m, c, root, home, kind, n, os, between, i, o)
    case Load(into, from, field) =>
      c.objs == m.objs && Wrote(s, c.state, s.roots[into].at, At(s.mem, RootObject(s, from) + field))
    case Store(holder, field, from) =>
      c.objs == m.objs && Wrote(s, c.state, RootObject(s, holder) + field, At(s.mem, s.roots[from].at))
    case Collect => Collected(m, c)
  }

  method DoAllocate(h: Heap, root: nat, home: Home, kind: Kind, n: nat, os: Addr)
    requires Sound(h) && Enabled(h.Now(), Allocate(root, home, kind, n, os))
    modifies h
    ensures Sound(h) && old(h.current < |h.regions|)
      && Stepped(old(Here(h)), Here(h), Allocate(root, home, kind, n, os))
  {
    hide Added, Preserved, Placed, CanAllocate, View.Valid, View.Resolves, Writable;
    ghost var m := Here(h);
    ghost var v := h.View();
    var obj := New(h, home, kind, n, os);
    ghost var between := Here(h);
    ghost var i, r :| Added(v, h.View(), i, Obj(r, obj, SizeOf(kind, n)));
    NewObjectResolves(v, h.View(), i, r, obj, SizeOf(kind, n), h.roots[root].sort, kind);
    RootIsWritable(h.View(), root);
    WriteWord(h, h.roots[root].at, Ptr(obj + Bias(kind)), h.roots[root].sort);
    assert Allocated(m, Here(h), root, home, kind, n, os, between, i, Obj(r, obj, SizeOf(kind, n)));
  }

  method DoLoad(h: Heap, into: nat, from: nat, field: int)
    requires Sound(h) && Enabled(h.Now(), Load(into, from, field))
    modifies h`mem
    ensures Sound(h) && Stepped(old(Here(h)), Here(h), Load(into, from, field))
  {
    ghost var v := h.View();
    ghost var k := RootReaches(v, from);
    FieldResolves(v, k, field);
    RootIsWritable(v, into);
    WriteWord(h, h.roots[into].at, h.mem[RootObject(h.Now(), from) + field], h.roots[into].sort);
  }

  method DoStore(h: Heap, holder: nat, field: int, from: nat)
    requires Sound(h) && Enabled(h.Now(), Store(holder, field, from))
    modifies h`mem
    ensures Sound(h) && Stepped(old(Here(h)), Here(h), Store(holder, field, from))
  {
    ghost var v := h.View();
    ghost var k := RootReaches(v, holder);
    assert v.RootOk(from);
    var a := RootObject(h.Now(), holder) + field;
    assert FieldAt(v, k, a, h.roots[from].sort);
    WriteWord(h, a, h.mem[h.roots[from].at], h.roots[from].sort);
  }

  lemma PagesAreEnough(regions: seq<Region>, r: int)
    requires 0 <= r < |regions| && Sized(regions, r)
    ensures 1 <= PagesOf(regions[r])
  {
  }

  method DoCollect(h: Heap)
    requires Sound(h) && Enabled(h.Now(), Op.Collect)
    modifies h
    ensures Sound(h) && Stepped(old(Here(h)), Here(h), Op.Collect)
  {
    hide Preserved;
    ghost var m, v := Here(h), h.View();
    ObjectsInRegions(h.regions, h.objs);
    ghost var was := h.regions;
    GcCollect.Collect(h);
    forall r | 0 <= r < |h.regions| ensures Sized(h.regions, r) {
      assert Sized(was, r);
    }
    PagesAreEnough(h.regions, h.current);
    ghost var ren :| Preserved(v, h.View(), ren);
    assert Preserved(ViewOf(m.state, m.objs), ViewOf(h.Now(), h.objs), ren);
    assert Collected(m, Here(h));
  }

  method Do(h: Heap, op: Op)
    requires Sound(h) && Enabled(h.Now(), op)
    modifies h
    ensures Sound(h) && Stepped(old(Here(h)), Here(h), op)
  {
    hide Sound, Enabled, Stepped;
    match op
    case Allocate(root, home, kind, n, os) => DoAllocate(h, root, home, kind, n, os);
    case Load(into, from, field) => DoLoad(h, into, from, field);
    case Store(holder, field, from) => DoStore(h, holder, field, from);
    case Collect => DoCollect(h);
  }

  /** Step i of a run is the operation if it is enabled, and nothing otherwise; the heap is well
      formed before and after it. */
  ghost predicate StepOf(run: seq<Moment>, ops: seq<Op>, i: nat) {
    && i < |ops| && i + 1 < |run| && Goes(run[i].state, run[i].objs) && Goes(run[i + 1].state, run[i + 1].objs)
    && if Enabled(run[i].state, ops[i]) then Stepped(run[i], run[i + 1], ops[i]) else run[i + 1] == run[i]
  }

  ghost predicate Steps(run: seq<Moment>, ops: seq<Op>) {
    |run| == |ops| + 1 && forall i {:trigger StepOf(run, ops, i)} :: 0 <= i < |ops| ==> StepOf(run, ops, i)
  }

  lemma StepsMore(run: seq<Moment>, ops: seq<Op>, c: Moment, op: Op)
    requires Steps(run, ops) && Goes(run[|ops|].state, run[|ops|].objs) && Goes(c.state, c.objs)
    requires if Enabled(run[|ops|].state, op) then Stepped(run[|ops|], c, op) else c == run[|ops|]
    ensures Steps(run + [c], ops + [op])
  {
    hide Stepped, Enabled;
    var more, all := run + [c], ops + [op];
    forall i {:trigger StepOf(more, all, i)} | 0 <= i < |all|
      ensures StepOf(more, all, i)
    {
      if i < |ops| {
        assert StepOf(run, ops, i);
      }
    }
  }

  /** A run.  Between any two steps the heap is well formed, and each step that is enabled has its
      effect and no other, whatever collections there are in between. */
  method Run(h: Heap, ops: seq<Op>) returns (ghost run: seq<Moment>)
    requires Sound(h)
    modifies h
    ensures Sound(h) && Steps(run, ops) && run[0] == old(Here(h)) && run[|ops|] == Here(h)
  {
    hide Steps, Stepped, Enabled;
    run := [Here(h)];
    NoSteps(Here(h));
    for i := 0 to |ops|
      invariant Sound(h) && |run| == i + 1 && run[0] == old(Here(h)) && run[i] == Here(h) && Steps(run, ops[..i])
    {
      if Enabled(h.Now(), ops[i]) {
        Do(h, ops[i]);
      }
      StepsMore(run, ops[..i], Here(h), ops[i]);
      assert ops[..i] + [ops[i]] == ops[..i + 1];
      run := run + [Here(h)];
    }
    assert ops[..|ops|] == ops;
  }

  lemma NoSteps(m: Moment)
    ensures Steps([m], [])
  {
  }

  /** Every run of a program from the start: a memory with root slots that refer to nothing, and the
      first region where the platform puts it. */
  method RunProgram(mem: Memory, roots: seq<Root>, os: Addr, ops: seq<Op>) returns (h: Heap, ghost run: seq<Moment>)
    requires RootsBlank(mem, roots) && Unused(mem, [], [], [], roots, os, 32 * PAGE_SIZE)
    ensures Sound(h) && Steps(run, ops) && run[|ops|] == Here(h)
    ensures run[0].objs == [] && run[0].state.mem == mem && run[0].state.roots == roots
    ensures run[0].state.regions == [Region(os + REGION_HEADER, os + REGION_HEADER, os + 32 * PAGE_SIZE)]
  {
    h := new Heap(mem, roots);
    Initialize(h, os);
    run := Run(h, ops);
  }

  /** A heap without objects whose walk does not start on one, nor on words that end it: an empty
      region of zeros. */
  lemma FreshHeapHasNoStart()
    ensures var s := Snapshot(seq(600, _ => Num(0)), [Region(8, 8, 600)], 0, 1, [], [], []);
            && Goes(s, []) && Sized(s.regions, 0) && !WalkEnds(s.mem, s.regions) && !Enabled(s, Op.Collect)
  {
    EmptyHeapIsValid(seq(600, _ => Num(0)), Region(8, 8, 600), []);
  }
}
