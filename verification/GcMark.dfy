/** Marking: the work-list threaded through the data words, and the naive recursive marker. */
module GcMark {
  import opened GcMemory
  import opened GcHeap
  import opened GcReach
  import opened GcState

  // ----- what marking sees of the heap -----------------------------------------------------

  ghost predicate ObjectOk(m: Memory, a: Addr) {
    HeaderOk(m, Obj(-1, a, SizeAt(m, a))) && At(m, a) == Ptr(NULL) && !MarkedAt(m, a)
  }

  ghost predicate ApartIn(m: Memory, a: Addr, b: Addr) {
    a + SizeAt(m, a) <= b || b + SizeAt(m, b) <= a
  }

  ghost predicate ClosedUnderSlots(m: Memory, s: set<Addr>) {
    forall a, f :: a in s && IsSlot(m, a, f) ==> SlotTarget(m, a, f) in s
  }

  /** m is an idle memory whose objects are those at the given addresses; the objects in reach
      refer to one another only. */
  ghost predicate World(m: Memory, objects: set<Addr>, reach: set<Addr>) {
    && (forall a {:trigger ObjectOk(m, a)} :: a in objects ==> ObjectOk(m, a))
    && (forall a, b {:trigger ApartIn(m, a, b)} :: a in objects && b in objects && a != b ==> ApartIn(m, a, b))
    && reach <= objects
    && ClosedUnderSlots(m, reach)
  }

  lemma ValidIsWorld(v: View)
    requires v.Valid()
    ensures World(v.mem, v.Addresses(), Reach(v))
  {
    forall a | a in v.Addresses() ensures ObjectOk(v.mem, a) {
      var k :| 0 <= k < v.Count() && v.ObjAt(k).at == a;
      assert v.ObjOk(k) && v.ObjIdle(k);
    }
    forall a, b | a in v.Addresses() && b in v.Addresses() && a != b ensures ApartIn(v.mem, a, b) {
      var i :| 0 <= i < v.Count() && v.ObjAt(i).at == a;
      var j :| 0 <= j < v.Count() && v.ObjAt(j).at == b;
      assert v.ObjOk(i) && v.ObjOk(j);
      assert if i < j then v.Separate(i, j) else v.Separate(j, i);
    }
    forall a, f | a in Reach(v) && IsSlot(v.mem, a, f) ensures SlotTarget(v.mem, a, f) in Reach(v) {
      assert Edge(v.mem, a, SlotTarget(v.mem, a, f));
      EdgeLeadsToObject(v, a, SlotTarget(v.mem, a, f));
      EdgeIsReachable(v, a, SlotTarget(v.mem, a, f));
    }
  }

  /** Where the other objects lie. */
  lemma Elsewhere(m: Memory, objects: set<Addr>, reach: set<Addr>, a: Addr)
    requires World(m, objects, reach) && a in objects
    ensures 0 < a && 3 <= SizeAt(m, a) && a + SizeAt(m, a) <= |m|
    ensures forall b :: b in objects && b != a ==> a + SizeAt(m, a) <= b || (0 < b && b + 3 <= a)
  {
    assert ObjectOk(m, a);
    forall b | b in objects && b != a ensures a + SizeAt(m, a) <= b || (0 < b && b + 3 <= a) {
      assert ApartIn(m, a, b) && ObjectOk(m, b);
    }
  }

  // ----- the work-list ---------------------------------------------------------------------

  /** m is m0 with the objects in marked marked and those in stack on the work-list. */
  ghost predicate Marking(m0: Memory, objects: set<Addr>, reach: set<Addr>,
                          m: Memory, marked: set<Addr>, stack: seq<Addr>) {
    && |m| == |m0|
    && World(m0, objects, reach)
    && marked <= reach
    && NoDuplicates(stack)
    && (forall i :: 0 <= i < |stack| ==> stack[i] in marked)
    && (forall i :: 0 <= i < |stack| ==> Linked(m, stack, i))
    && (forall a :: a !in stack ==> At(m, a) == At(Painted(m0, marked), a))
  }

  /** Marked objects off the work-list, but the one being scanned, have all their children marked. */
  ghost predicate Scanned(m0: Memory, marked: set<Addr>, stack: seq<Addr>, but: Addr) {
    forall a, f :: a in marked && a !in stack && a != but && IsSlot(m0, a, f) ==> SlotTarget(m0, a, f) in marked
  }

  function ListHead(stack: seq<Addr>): Addr {
    if |stack| == 0 then NULL else stack[0]
  }

  /** While marking, every object still reads as it did. */
  lemma MarkingKeepsShape(m0: Memory, objects: set<Addr>, reach: set<Addr>,
                          m: Memory, marked: set<Addr>, stack: seq<Addr>, a: Addr)
    requires Marking(m0, objects, reach, m, marked, stack) && a in objects
    ensures 0 < a && 3 <= SizeAt(m0, a) && a + SizeAt(m0, a) <= |m| && m[a + BITS].Bits?
    ensures KindAt(m, a) == KindAt(m0, a) && SizeAt(m, a) == SizeAt(m0, a)
    ensures MarkedAt(m, a) <==> a in marked
    ensures a !in stack ==> At(m, a) == Ptr(NULL)
    ensures forall b {:trigger At(m, b)} :: a + 2 <= b < a + SizeAt(m0, a) ==> At(m, b) == At(m0, b)
  {
    assert ObjectOk(m0, a);
    Elsewhere(m0, objects, reach, a);
    forall b | a < b < a + SizeAt(m0, a) ensures b !in stack && (b != a + BITS ==> At(m, b) == At(m0, b)) {
      assert b !in objects;
      assert b != a + BITS ==> b - BITS !in objects;
    }
    assert At(m, a + BITS) == At(Painted(m0, marked), a + BITS);
    assert a - BITS !in objects;
    assert At(m, a + EXTRA) == At(m0, a + EXTRA);
  }

  lemma Pushing(m0: Memory, objects: set<Addr>, reach: set<Addr>,
                m: Memory, marked: set<Addr>, stack: seq<Addr>, obj: Addr)
    requires Marking(m0, objects, reach, m, marked, stack)
    requires obj in reach && obj !in marked
    ensures 0 < obj && obj + 1 < |m| && m[obj + BITS].Bits?
    ensures Marking(m0, objects, reach,
                    m[obj + BITS := Bits(m[obj + BITS].kind, true)][obj + DATA := Ptr(ListHead(stack))],
                    marked + {obj}, [obj] + stack)
  {
    MarkingKeepsShape(m0, objects, reach, m, marked, stack, obj);
    Elsewhere(m0, objects, reach, obj);
    var m' := m[obj + BITS := Bits(m[obj + BITS].kind, true)][obj + DATA := Ptr(ListHead(stack))];
    var stack' := [obj] + stack;
    var marked' := marked + {obj};
    forall i | 0 <= i < |stack'| ensures Linked(m', stack', i) {
      if i > 0 {
        assert Linked(m, stack, i - 1);
        assert stack[i - 1] in objects;
      }
    }
    forall a | a !in stack' ensures At(m', a) == At(Painted(m0, marked'), a) {
      assert a !in stack && a != obj;
    }
  }

  lemma Popping(m0: Memory, objects: set<Addr>, reach: set<Addr>, m: Memory, marked: set<Addr>, stack: seq<Addr>)
    requires Marking(m0, objects, reach, m, marked, stack) && 0 < |stack|
    ensures 0 < stack[0] < |m| && m[stack[0]] == Ptr(ListHead(stack[1..]))
    ensures Marking(m0, objects, reach, m[stack[0] := Ptr(NULL)], marked, stack[1..])
    ensures stack[0] in marked && stack[0] !in stack[1..] && NULL !in marked
  {
    assert NULL in marked ==> ObjectOk(m0, NULL);
    var top := stack[0];
    assert top in marked && Linked(m, stack, 0) && ObjectOk(m0, top);
    Elsewhere(m0, objects, reach, top);
    var m' := m[top := Ptr(NULL)];
    var stack' := stack[1..];
    forall i | 0 <= i < |stack'| ensures Linked(m', stack', i) {
      assert Linked(m, stack, i + 1);
    }
    assert top - BITS !in marked;
    assert stack == [top] + stack';
  }

  /** mark_pointer */
  method MarkPointer(h: Heap, obj: Addr, markList: Addr, ghost m0: Memory, ghost objects: set<Addr>,
                     ghost reach: set<Addr>, ghost marked: set<Addr>, ghost stack: seq<Addr>)
    returns (pushed: bool, markList': Addr)
    requires Marking(m0, objects, reach, h.mem, marked, stack) && markList == ListHead(stack)
    requires obj in reach
    modifies h`mem
    ensures Marking(m0, objects, reach, h.mem, marked + {obj}, if pushed then [obj] + stack else stack)
    ensures pushed == (obj !in marked) && markList' == if pushed then obj else markList
  {
    MarkingKeepsShape(m0, objects, reach, h.mem, marked, stack, obj);
    if !h.mem[obj + BITS].marked {
      Pushing(m0, objects, reach, h.mem, marked, stack, obj);
      h.mem := h.mem[obj + BITS := Bits(h.mem[obj + BITS].kind, true)];
      h.mem := h.mem[obj + DATA := Ptr(markList)];
      pushed, markList' := true, obj;
    } else {
      assert marked + {obj} == marked;
      pushed, markList' := false, markList;
    }
  }

  lemma PushKeepsScanned(m0: Memory, marked: set<Addr>, stack: seq<Addr>, obj: Addr, but: Addr)
    requires Scanned(m0, marked, stack, but)
    ensures Scanned(m0, marked + {obj}, if obj in marked then stack else [obj] + stack, but)
  {
  }

  lemma PopKeepsScanned(m0: Memory, marked: set<Addr>, stack: seq<Addr>)
    requires |stack| > 0 && NULL !in marked && Scanned(m0, marked, stack, NULL)
    ensures Scanned(m0, marked, stack[1..], stack[0])
  {
    assert stack == [stack[0]] + stack[1..];
  }

  lemma WorkDecreases(reach: set<Addr>, marked: set<Addr>, stack: seq<Addr>, obj: Addr)
    requires obj in reach
    ensures var stack' := if obj in marked then stack else [obj] + stack;
      |reach - (marked + {obj})| + |stack'| == |reach - marked| + |stack|
  {
    if obj in marked {
      assert marked + {obj} == marked;
    } else {
      assert reach - marked == (reach - (marked + {obj})) + {obj};
    }
  }

  /** The mark function of current's class, with mark_pointer for every reference. */
  method MarkFields(h: Heap, current: Addr, markList: Addr, ghost m0: Memory, ghost objects: set<Addr>,
                    ghost reach: set<Addr>, ghost marked: set<Addr>, ghost stack: seq<Addr>)
    returns (markList': Addr, ghost marked': set<Addr>, ghost stack': seq<Addr>)
    requires Marking(m0, objects, reach, h.mem, marked, stack) && markList == ListHead(stack)
    requires current in marked && current !in stack && Scanned(m0, marked, stack, current)
    modifies h`mem
    ensures Marking(m0, objects, reach, h.mem, marked', stack') && markList' == ListHead(stack')
    ensures marked <= marked' && Scanned(m0, marked', stack', NULL)
    ensures |reach - marked'| + |stack'| == |reach - marked| + |stack|
  {
    MarkingKeepsShape(m0, objects, reach, h.mem, marked, stack, current);
    var kind, size := h.mem[current + BITS].kind, SizeAt(h.mem, current);
    var f := 2;
    markList', marked', stack' := markList, marked, stack;
    while f < size
      invariant 2 <= f <= size
      invariant Marking(m0, objects, reach, h.mem, marked', stack') && markList' == ListHead(stack')
      invariant marked <= marked' && current !in stack'
      invariant Scanned(m0, marked', stack', current)
      invariant forall g :: 0 <= g < f && IsSlot(m0, current, g) ==> SlotTarget(m0, current, g) in marked'
      invariant |reach - marked'| + |stack'| == |reach - marked| + |stack|
    {
      MarkingKeepsShape(m0, objects, reach, h.mem, marked', stack', current);
      var sort, w := SortOf(kind, f), h.mem[current + f];
      assert w == At(h.mem, current + f) == At(m0, current + f);
      if IsRef(sort, w) {
        var obj := Target(sort, w);
        assert IsSlot(m0, current, f) && SlotTarget(m0, current, f) == obj;
        var pushed;
        pushed, markList' := MarkPointer(h, obj, markList', m0, objects, reach, marked', stack');
        WorkDecreases(reach, marked', stack', obj);
        PushKeepsScanned(m0, marked', stack', obj, current);
        marked', stack' := marked' + {obj}, if pushed then [obj] + stack' else stack';
      }
      f := f + 1;
    }
  }

  /** mark_children: drains the work-list. */
  method MarkChildren(h: Heap, markList: Addr, ghost m0: Memory, ghost objects: set<Addr>,
                      ghost reach: set<Addr>, ghost marked: set<Addr>, ghost stack: seq<Addr>)
    returns (ghost marked': set<Addr>)
    requires Marking(m0, objects, reach, h.mem, marked, stack) && markList == ListHead(stack)
    requires Scanned(m0, marked, stack, NULL)
    modifies h`mem
    ensures Marking(m0, objects, reach, h.mem, marked', [])
    ensures marked <= marked' && Scanned(m0, marked', [], NULL)
  {
    var list := markList;
    ghost var work := stack;
    marked' := marked;
    while list != NULL
      invariant Marking(m0, objects, reach, h.mem, marked', work) && list == ListHead(work)
      invariant marked <= marked' && Scanned(m0, marked', work, NULL)
      decreases |reach - marked'| + |work|
    {
      Popping(m0, objects, reach, h.mem, marked', work);
      var current := list;
      list := h.mem[current + DATA].to;
      h.mem := h.mem[current + DATA := Ptr(NULL)];
      PopKeepsScanned(m0, marked', work);
      list, marked', work := MarkFields(h, current, list, m0, objects, reach, marked', work[1..]);
    }
    assert |work| > 0 ==> work[0] in marked' && ObjectOk(m0, work[0]);
  }

  /** mark(root) followed by the callback, which drains the work-list. */
  method MarkRoot(h: Heap, obj: Addr, ghost m0: Memory, ghost objects: set<Addr>, ghost reach: set<Addr>,
                  ghost marked: set<Addr>)
    returns (ghost marked': set<Addr>)
    requires Marking(m0, objects, reach, h.mem, marked, []) && Scanned(m0, marked, [], NULL)
    requires obj in reach
    modifies h`mem
    ensures Marking(m0, objects, reach, h.mem, marked', []) && Scanned(m0, marked', [], NULL)
    ensures marked + {obj} <= marked'
  {
    var pushed, list := MarkPointer(h, obj, NULL, m0, objects, reach, marked, []);
    PushKeepsScanned(m0, marked, [], obj, NULL);
    marked' := marked + {obj};
    if pushed {
      assert [obj] + [] == [obj];
      marked' := MarkChildren(h, list, m0, objects, reach, marked', [obj]);
    }
  }

  // ----- the naive marker ------------------------------------------------------------------

  /** Objects marked since `before` have all their children marked. */
  ghost predicate ScannedSince(m0: Memory, before: set<Addr>, marked: set<Addr>) {
    forall a, f :: a in marked && a !in before && IsSlot(m0, a, f) ==> SlotTarget(m0, a, f) in marked
  }

  lemma NextField(m0: Memory, objects: set<Addr>, reach: set<Addr>, m: Memory, marked: set<Addr>, obj: Addr, f: int,
                  size: int, kind: Kind)
    requires Marking(m0, objects, reach, m, marked, []) && obj in reach && size == SizeAt(m0, obj)
      && kind == KindAt(m0, obj) && 2 <= f < size
    ensures 0 <= obj && obj + f < |m|
    ensures IsRef(SortOf(kind, f), m[obj + f]) <==> IsSlot(m0, obj, f)
    ensures IsSlot(m0, obj, f) ==>
      SlotTarget(m0, obj, f) == Target(SortOf(kind, f), m[obj + f]) && SlotTarget(m0, obj, f) in reach
  {
    MarkingKeepsShape(m0, objects, reach, m, marked, [], obj);
    assert m[obj + f] == At(m, obj + f) == At(m0, obj + f);
  }

  ghost predicate FieldsMarked(m0: Memory, obj: Addr, f: int, marked: set<Addr>) {
    forall g :: 0 <= g < f && IsSlot(m0, obj, g) ==> SlotTarget(m0, obj, g) in marked
  }

  lemma ScannedWith(m0: Memory, marked: set<Addr>, obj: Addr, marked': set<Addr>)
    requires ScannedSince(m0, marked + {obj}, marked') && FieldsMarked(m0, obj, SizeAt(m0, obj), marked')
    ensures ScannedSince(m0, marked, marked')
  {
  }

  lemma FieldMarked(m0: Memory, obj: Addr, f: int, marked: set<Addr>, marked': set<Addr>)
    requires FieldsMarked(m0, obj, f, marked) && marked <= marked'
    requires IsSlot(m0, obj, f) ==> SlotTarget(m0, obj, f) in marked'
    ensures FieldsMarked(m0, obj, f + 1, marked')
  {
  }

  lemma ScannedLater(m0: Memory, first: set<Addr>, marked: set<Addr>, marked': set<Addr>)
    requires ScannedSince(m0, first, marked) && ScannedSince(m0, marked, marked') && marked <= marked'
    ensures ScannedSince(m0, first, marked')
  {
  }

  lemma NothingScanned(m0: Memory, marked: set<Addr>, obj: Addr)
    ensures ScannedSince(m0, marked, marked) && FieldsMarked(m0, obj, 2, marked)
  {
  }

  /** naive_mark_pointer */
  method NaiveMarkPointer(h: Heap, obj: Addr, ghost m0: Memory, ghost objects: set<Addr>, ghost reach: set<Addr>,
                          ghost marked: set<Addr>)
    returns (ghost marked': set<Addr>)
    requires Marking(m0, objects, reach, h.mem, marked, [])
    requires obj in reach
    modifies h`mem
    ensures Marking(m0, objects, reach, h.mem, marked', [])
    ensures marked + {obj} <= marked' && ScannedSince(m0, marked, marked')
    decreases |reach - marked|, 0
  {
    hide IsSlot, ScannedSince, FieldsMarked;
    MarkingKeepsShape(m0, objects, reach, h.mem, marked, [], obj);
    marked' := marked;
    NothingScanned(m0, marked, obj);
    if !h.mem[obj + BITS].marked {
      Pushing(m0, objects, reach, h.mem, marked, [], obj);
      h.mem := h.mem[obj + BITS := Bits(h.mem[obj + BITS].kind, true)];
      marked' := marked + {obj};
      NaivelyMarked(m0, objects, reach, h.mem, marked', obj);
      WorkDecreases(reach, marked, [], obj);
      marked' := NaiveMarkFields(h, obj, m0, objects, reach, marked');
      ScannedWith(m0, marked, obj, marked');
    }
  }

  /** The fields of an object that has just been marked. */
  method NaiveMarkFields(h: Heap, obj: Addr, ghost m0: Memory, ghost objects: set<Addr>, ghost reach: set<Addr>,
                         ghost marked: set<Addr>)
    returns (ghost marked': set<Addr>)
    requires Marking(m0, objects, reach, h.mem, marked, []) && obj in reach && obj in marked
    modifies h`mem
    ensures Marking(m0, objects, reach, h.mem, marked', []) && marked <= marked'
    ensures ScannedSince(m0, marked, marked') && FieldsMarked(m0, obj, SizeAt(m0, obj), marked')
    decreases |reach - marked|, 1
  {
    hide Marking, IsSlot, ScannedSince, FieldsMarked;
    ObjectShape(m0, objects, reach, h.mem, marked, obj);
    var kind, size := h.mem[obj + BITS].kind, SizeAt(h.mem, obj);
    marked' := marked;
    NothingScanned(m0, marked, obj);
    var f := 2;
    while f < size
      invariant 2 <= f <= size
      invariant Marking(m0, objects, reach, h.mem, marked', [])
      invariant marked <= marked' && ScannedSince(m0, marked, marked') && FieldsMarked(m0, obj, f, marked')
    {
      NextField(m0, objects, reach, h.mem, marked', obj, f, size, kind);
      var sort, w := SortOf(kind, f), h.mem[obj + f];
      ghost var before := marked';
      if IsRef(sort, w) {
        FewerLeft(reach, marked, marked');
        marked' := NaiveMarkPointer(h, Target(sort, w), m0, objects, reach, marked');
        ScannedLater(m0, marked, before, marked');
      }
      FieldMarked(m0, obj, f, before, marked');
      f := f + 1;
    }
  }

  lemma ObjectShape(m0: Memory, objects: set<Addr>, reach: set<Addr>, m: Memory, marked: set<Addr>, obj: Addr)
    requires Marking(m0, objects, reach, m, marked, []) && obj in reach
    ensures 0 <= obj && obj + BITS < |m| && m[obj + BITS].Bits? && m[obj + BITS].kind == KindAt(m0, obj)
    ensures SizeAt(m, obj) == SizeAt(m0, obj) >= 2
  {
    MarkingKeepsShape(m0, objects, reach, m, marked, [], obj);
  }

  lemma FewerLeft(reach: set<Addr>, a: set<Addr>, b: set<Addr>)
    requires a <= b
    ensures |reach - b| <= |reach - a|
  {
    assert reach - a == (reach - b) + (reach * b - a);
  }

  /** The naive marker leaves the data word alone; it is empty already. */
  lemma NaivelyMarked(m0: Memory, objects: set<Addr>, reach: set<Addr>, m: Memory, marked: set<Addr>, obj: Addr)
    requires 0 <= obj < |m| && obj in objects && obj !in {NULL}
    requires At(m, obj) == Ptr(NULL)
    requires Marking(m0, objects, reach, m[obj + DATA := Ptr(NULL)], marked, [obj] + [])
    ensures Marking(m0, objects, reach, m, marked, [])
  {
    assert m[obj + DATA := Ptr(NULL)] == m;
    Popping(m0, objects, reach, m, marked, [obj] + []);
    assert ([obj] + [])[1..] == [];
  }

  // ----- the whole of marking --------------------------------------------------------------

  lemma RootWord(v: View, m: Memory, marked: set<Addr>, i: int)
    requires v.Valid() && Marking(v.mem, v.Addresses(), Reach(v), m, marked, []) && 0 <= i < |v.roots|
    ensures 0 < v.roots[i].at < |m| && m[v.roots[i].at] == v.mem[v.roots[i].at]
    ensures var w := m[v.roots[i].at];
      IsRef(v.roots[i].sort, w) ==>
        RootRefersTo(v, i, Target(v.roots[i].sort, w)) && Target(v.roots[i].sort, w) in Reach(v)
  {
    var at := v.roots[i].at;
    assert v.RootOk(i);
    forall k | 0 <= k < v.Count() ensures v.ObjAt(k).at != at - BITS && v.ObjAt(k).at != at {
      assert v.RootOutsideObj(i, k) && v.ObjOk(k);
    }
    assert At(m, at) == At(v.mem, at);
    var w := m[at];
    if IsRef(v.roots[i].sort, w) {
      assert RootRefersTo(v, i, Target(v.roots[i].sort, w));
      RootInReach(v, Target(v.roots[i].sort, w));
    }
  }

  lemma RootInReach(v: View, a: Addr)
    requires v.Valid() && IsRootObject(v, a)
    ensures a in Reach(v)
  {
    RootIsObject(v, a);
    RootIsReachable(v, a);
  }

  ghost predicate RootsMarked(v: View, marked: set<Addr>, n: int)
  {
    forall j, a :: 0 <= j < n && j < |v.roots| && RootRefersTo(v, j, a) ==> a in marked
  }

  lemma MarkedIsReach(v: View, m: Memory, marked: set<Addr>)
    requires v.Valid() && Marking(v.mem, v.Addresses(), Reach(v), m, marked, [])
    requires Scanned(v.mem, marked, [], NULL)
    requires RootsMarked(v, marked, |v.roots|)
    requires forall j :: 0 <= j < |v.symbols| ==> v.symbols[j] in marked
    ensures m == Painted(v.mem, Reach(v))
  {
    assert NULL in marked ==> ObjectOk(v.mem, NULL);
    assert Closed(v, marked);
    forall a | a in Reach(v) ensures a in marked {
      ReachableIsLeast(v, marked, a);
    }
    assert marked == Reach(v);
    forall a | 0 <= a < |m| ensures m[a] == Painted(v.mem, marked)[a] {
      assert At(m, a) == At(Painted(v.mem, marked), a);
    }
  }

  /** What holds between the roots: the first n root slots have been dealt with. */
  ghost predicate RootsDone(v: View, m: Memory, marked: set<Addr>, n: int, symbols: int) {
    && Marking(v.mem, v.Addresses(), Reach(v), m, marked, [])
    && Scanned(v.mem, marked, [], NULL)
    && RootsMarked(v, marked, n)
    && (forall j :: 0 <= j < symbols && j < |v.symbols| ==> v.symbols[j] in marked)
  }

  /** The n-th root slot, or once those are done the n-th symbol, goes through mark_pointer and
      the callback, or through naive_mark_pointer. */
  method MarkOneRoot(h: Heap, obj: Addr, naive: bool, ghost v: View, ghost marked: set<Addr>, ghost n: int,
                     ghost symbols: int)
    returns (ghost marked': set<Addr>)
    requires v.Valid() && RootsDone(v, h.mem, marked, n, symbols)
    requires obj in Reach(v)
    modifies h`mem
    ensures RootsDone(v, h.mem, marked', n, symbols) && obj in marked'
  {
    if naive {
      marked' := NaiveMarkPointer(h, obj, v.mem, v.Addresses(), Reach(v), marked);
    } else {
      marked' := MarkRoot(h, obj, v.mem, v.Addresses(), Reach(v), marked);
    }
    assert forall a :: a in marked ==> a in marked';
  }

  lemma NoRootsDone(v: View)
    requires v.Valid()
    ensures RootsDone(v, v.mem, {}, 0, 0)
  {
    ValidIsWorld(v);
  }

  lemma RootDone(v: View, m: Memory, marked: set<Addr>, n: int)
    requires v.Valid() && RootsDone(v, m, marked, n, 0) && 0 <= n < |v.roots| && 0 < v.roots[n].at < |m|
      && m[v.roots[n].at] == v.mem[v.roots[n].at]
    requires IsRef(v.roots[n].sort, m[v.roots[n].at]) ==> Target(v.roots[n].sort, m[v.roots[n].at]) in marked
    ensures RootsDone(v, m, marked, n + 1, 0)
  {
  }

  lemma SymbolDone(v: View, m: Memory, marked: set<Addr>, n: int)
    requires RootsDone(v, m, marked, |v.roots|, n) && 0 <= n < |v.symbols| && v.symbols[n] in marked
    ensures RootsDone(v, m, marked, |v.roots|, n + 1)
  {
  }

  lemma AllDone(v: View, m: Memory, marked: set<Addr>)
    requires v.Valid() && RootsDone(v, m, marked, |v.roots|, |v.symbols|)
    ensures m == Painted(v.mem, Reach(v))
  {
    MarkedIsReach(v, m, marked);
  }

  lemma NextRoot(v: View, m: Memory, marked: set<Addr>, i: int)
    requires v.Valid() && RootsDone(v, m, marked, i, 0) && 0 <= i < |v.roots|
    ensures 0 < v.roots[i].at < |m| && m[v.roots[i].at] == v.mem[v.roots[i].at]
    ensures IsRef(v.roots[i].sort, m[v.roots[i].at]) ==> Target(v.roots[i].sort, m[v.roots[i].at]) in Reach(v)
  {
    RootWord(v, m, marked, i);
  }

  method EachRoot(h: Heap, naive: bool, ghost v: View)
    requires v == h.View() && v.Valid()
    modifies h`mem
    ensures h.mem == Painted(v.mem, Reach(v))
  {
    hide RootsDone, Reach, Painted, IsRootObject;
    ghost var marked: set<Addr> := {};
    NoRootsDone(v);
    var roots, symbols := h.roots, h.symbols;
    var i := 0;
    while i < |roots|
      invariant 0 <= i <= |roots|
      invariant RootsDone(v, h.mem, marked, i, 0)
    {
      NextRoot(v, h.mem, marked, i);
      var w := h.mem[roots[i].at];
      if IsRef(roots[i].sort, w) {
        marked := MarkOneRoot(h, Target(roots[i].sort, w), naive, v, marked, i, 0);
        NextRoot(v, h.mem, marked, i);
      }
      RootDone(v, h.mem, marked, i);
      i := i + 1;
    }
    i := 0;
    while i < |symbols|
      invariant 0 <= i <= |symbols|
      invariant RootsDone(v, h.mem, marked, |roots|, i)
    {
      SymbolIsRoot(v, i);
      RootInReach(v, symbols[i]);
      marked := MarkOneRoot(h, symbols[i], naive, v, marked, |roots|, i);
      SymbolDone(v, h.mem, marked, i);
      i := i + 1;
    }
    AllDone(v, h.mem, marked);
  }

  lemma SymbolIsRoot(v: View, i: int)
    requires 0 <= i < |v.symbols|
    ensures IsRootObject(v, v.symbols[i])
  {
  }

  /** Collector::mark: afterwards exactly the reachable objects are marked, every list is empty and
      nothing else has changed. */
  method Mark(h: Heap)
    requires h.View().Valid()
    modifies h`mem
    ensures h.mem == Painted(old(h.mem), Reach(old(h.View())))
  {
    EachRoot(h, false, h.View());
  }

  /** Collector::naive_mark computes the same memory. */
  method NaiveMark(h: Heap)
    requires h.View().Valid()
    modifies h`mem
    ensures h.mem == Painted(old(h.mem), Reach(old(h.View())))
  {
    EachRoot(h, true, h.View());
  }
}
