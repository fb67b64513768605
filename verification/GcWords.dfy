/** References, collection and a program's loads and stores spelled out in words: an object's header
    is a data word, the word with its class, and, for tuples, the number of their entries, which
    follow from the fourth word on. */
module GcWords {
  import opened GcMemory
  import opened GcHeap
  import opened GcState
  import opened GcReach
  import opened GcCollect
  import opened GcAlloc
  import opened GcRun

  // ----- what an object refers to ----------------------------------------------------------------

  /** A tuple refers to what its entries do, and nothing else. */
  lemma TupleRefersTo(m: Memory, a: Addr, n: nat, b: Addr)
    requires At(m, a + 1).Bits? && At(m, a + 2) == Num(n)
    ensures At(m, a + 1).kind == ValueTuple ==>
              (Edge(m, a, b) <==> exists s {:trigger At(m, s)} :: a + 3 <= s < a + 3 + n && At(m, s) == Ptr(b))
    ensures At(m, a + 1).kind == PointerTuple ==>
              (Edge(m, a, b) <==>
               b != 0 && exists s {:trigger At(m, s)} :: a + 3 <= s < a + 3 + n && At(m, s) == Ptr(b))
  {
    forall s {:trigger At(m, s)} | a + 3 <= s < a + 3 + n && At(m, s) == Ptr(b)
      ensures At(m, a + 1).kind == ValueTuple ==> Edge(m, a, b)
      ensures At(m, a + 1).kind == PointerTuple && b != 0 ==> Edge(m, a, b)
    {
      var f := s - a;
      assert At(m, a + f) == Ptr(b);
      assert At(m, a + 1).kind == ValueTuple ==> IsSlot(m, a, f) && SlotTarget(m, a, f) == b;
      assert At(m, a + 1).kind == PointerTuple && b != 0 ==> IsSlot(m, a, f) && SlotTarget(m, a, f) == b;
    }
    if Edge(m, a, b) {
      var f :| IsSlot(m, a, f) && SlotTarget(m, a, f) == b;
      assert At(m, a + f) == Ptr(b) || !At(m, a + 1).kind.ValueTuple?;
    }
  }

  /** A record refers to what its fields do, each as its class says. */
  lemma RecordRefersTo(m: Memory, a: Addr, fields: seq<Sort>, b: Addr)
    requires At(m, a + 1).Bits? && At(m, a + 1).kind == Record(fields)
    ensures Edge(m, a, b) <==>
            exists i {:trigger fields[i]} :: 0 <= i < |fields| &&
              (|| (fields[i] == ValueRef && At(m, a + 2 + i) == Ptr(b))
               || (fields[i] == PointerRef && At(m, a + 2 + i) == Ptr(b) && b != 0)
               || (fields[i] == CharData && At(m, a + 2 + i) == Ptr(b + 3) && b + 3 != 0))
  {
    forall i {:trigger fields[i]} | 0 <= i < |fields|
      ensures fields[i] == ValueRef && At(m, a + 2 + i) == Ptr(b) ==> Edge(m, a, b)
      ensures fields[i] == PointerRef && At(m, a + 2 + i) == Ptr(b) && b != 0 ==> Edge(m, a, b)
      ensures fields[i] == CharData && At(m, a + 2 + i) == Ptr(b + 3) && b + 3 != 0 ==> Edge(m, a, b)
    {
      var f := 2 + i;
      assert At(m, a + f) == At(m, a + 2 + i) && SortOf(KindAt(m, a), f) == fields[i];
      assert IsSlot(m, a, f) ==> SlotTarget(m, a, f) == Target(fields[i], At(m, a + f));
    }
    if Edge(m, a, b) {
      var f :| IsSlot(m, a, f) && SlotTarget(m, a, f) == b;
      var i := f - 2;
      assert At(m, a + f) == At(m, a + 2 + i) && SortOf(KindAt(m, a), f) == fields[i];
    }
  }

  /** Blocks and free blocks refer to nothing. */
  lemma OthersReferToNothing(m: Memory, a: Addr, b: Addr)
    requires At(m, a + 1).Bits? && At(m, a + 1).kind in {Block, FreeRun}
    ensures !Edge(m, a, b)
  {
  }

  /** The objects the roots refer to, and the symbols. */
  lemma RootsReferTo(v: View, b: Addr)
    ensures IsRootObject(v, b) <==>
            (|| b in v.symbols
             || (exists i {:trigger v.roots[i]} :: 0 <= i < |v.roots| &&
                   (|| (v.roots[i].sort == ValueRef && At(v.mem, v.roots[i].at) == Ptr(b))
                    || (v.roots[i].sort == PointerRef && At(v.mem, v.roots[i].at) == Ptr(b) && b != 0)
                    || (v.roots[i].sort == CharData && At(v.mem, v.roots[i].at) == Ptr(b + 3) && b + 3 != 0))))
  {
    forall i {:trigger v.roots[i]} | 0 <= i < |v.roots|
      ensures v.roots[i].sort == ValueRef && At(v.mem, v.roots[i].at) == Ptr(b) ==> IsRootObject(v, b)
      ensures v.roots[i].sort == PointerRef && At(v.mem, v.roots[i].at) == Ptr(b) && b != 0 ==> IsRootObject(v, b)
      ensures v.roots[i].sort == CharData && At(v.mem, v.roots[i].at) == Ptr(b + 3) && b + 3 != 0 ==>
                IsRootObject(v, b)
    {
      assert RootRefersTo(v, i, b) ==> IsRootObject(v, b);
    }
  }

  lemma EdgeStaysReachable(v: View, a: Addr, b: Addr)
    requires v.Valid() && a in Reach(v) && Edge(v.mem, a, b)
    ensures b in Reach(v)
  {
    EdgeIsReachable(v, a, b);
    EdgeLeadsToObject(v, a, b);
  }

  /** What any entry of a reachable tuple refers to, the first and the last included, is reachable. */
  lemma EntryIsReachable(v: View, a: Addr, n: int, i: nat, b: Addr)
    requires v.Valid() && a in Reach(v) && At(v.mem, a + 1).Bits? && At(v.mem, a + 2) == Num(n)
    requires i < n && At(v.mem, a + 3 + i) == Ptr(b)
    ensures At(v.mem, a + 1).kind == ValueTuple ==> b in Reach(v)
    ensures At(v.mem, a + 1).kind == PointerTuple && b != 0 ==> b in Reach(v)
  {
    TupleRefersTo(v.mem, a, n, b);
    if At(v.mem, a + 1).kind == ValueTuple || (At(v.mem, a + 1).kind == PointerTuple && b != 0) {
      EdgeStaysReachable(v, a, b);
    }
  }

  /** The same for the fields of a record that are no raw words. */
  lemma FieldIsReachable(v: View, a: Addr, fields: seq<Sort>, i: nat, b: Addr)
    requires v.Valid() && a in Reach(v) && At(v.mem, a + 1).Bits? && At(v.mem, a + 1).kind == Record(fields)
    requires i < |fields|
    ensures fields[i] == ValueRef && At(v.mem, a + 2 + i) == Ptr(b) ==> b in Reach(v)
    ensures fields[i] == PointerRef && At(v.mem, a + 2 + i) == Ptr(b) && b != 0 ==> b in Reach(v)
    ensures fields[i] == CharData && At(v.mem, a + 2 + i) == Ptr(b + 3) && b + 3 != 0 ==> b in Reach(v)
  {
    RecordRefersTo(v.mem, a, fields, b);
    if Edge(v.mem, a, b) {
      EdgeStaysReachable(v, a, b);
    }
  }

  // ----- what a collection makes of it -----------------------------------------------------------

  lemma WordIsCopied(v: View, c: View, ren: map<Addr, Addr>, a: Addr, f: int)
    requires Preserved(v, c, ren) && a in ren
    ensures KindAt(c.mem, ren[a]) == KindAt(v.mem, a) && SizeAt(c.mem, ren[a]) == SizeAt(v.mem, a)
    ensures 2 <= f < SizeAt(v.mem, a) ==>
              IsRenamed(ren, SortOf(KindAt(v.mem, a), f), At(v.mem, a + f), At(c.mem, ren[a] + f))
  {
    assert Copied(v, c, ren, a);
    assert 2 <= f < SizeAt(v.mem, a) ==> FieldCopied(v, c, ren, a, f);
  }

  /** What becomes of a word: one that refers to nothing stays. */
  ghost predicate IsRenamed(ren: map<Addr, Addr>, s: Sort, w: Word, w': Word) {
    if s == Raw || !w.Ptr? || (w.to == 0 && s != ValueRef) then w' == w
    else if s == CharData then w.to - 3 in ren && w' == Ptr(ren[w.to - 3] + 3)
    else w.to in ren && w' == Ptr(ren[w.to])
  }

  /** A tuple keeps its class, its size and its entries, and every reference in it is renamed. */
  lemma TupleIsCopied(v: View, c: View, ren: map<Addr, Addr>, a: Addr, n: int)
    requires Preserved(v, c, ren) && a in ren && At(v.mem, a + 1).Bits? && At(v.mem, a + 2) == Num(n) && 0 <= n
    requires At(v.mem, a + 1).kind in {ValueTuple, PointerTuple}
    ensures At(c.mem, ren[a] + 1).Bits? && At(c.mem, ren[a] + 1).kind == At(v.mem, a + 1).kind
    ensures At(c.mem, ren[a] + 2) == Num(n)
    ensures forall s {:trigger At(v.mem, s)} :: a + 3 <= s < a + 3 + n ==>
              var w, w' := At(v.mem, s), At(c.mem, ren[a] + (s - a));
              if w.Ptr? && (At(v.mem, a + 1).kind == ValueTuple || w.to != 0)
              then w.to in ren && w' == Ptr(ren[w.to])
              else w' == w
  {
    hide Preserved;
    WordIsCopied(v, c, ren, a, 2);
    forall s {:trigger At(v.mem, s)} | a + 3 <= s < a + 3 + n
      ensures var w, w' := At(v.mem, s), At(c.mem, ren[a] + (s - a));
              if w.Ptr? && (At(v.mem, a + 1).kind == ValueTuple || w.to != 0)
              then w.to in ren && w' == Ptr(ren[w.to])
              else w' == w
    {
      WordIsCopied(v, c, ren, a, s - a);
    }
  }

  /** A record keeps its class and its fields; those that refer to objects are renamed, and character
      data stays three words inside of its block. */
  lemma RecordIsCopied(v: View, c: View, ren: map<Addr, Addr>, a: Addr, fields: seq<Sort>)
    requires Preserved(v, c, ren) && a in ren && At(v.mem, a + 1).Bits? && At(v.mem, a + 1).kind == Record(fields)
    requires |fields| > 0
    ensures At(c.mem, ren[a] + 1).Bits? && At(c.mem, ren[a] + 1).kind == Record(fields)
    ensures forall i {:trigger fields[i]} :: 0 <= i < |fields| ==>
              var w, w' := At(v.mem, a + 2 + i), At(c.mem, ren[a] + 2 + i);
              if fields[i] == Raw || !w.Ptr? || (w.to == 0 && fields[i] != ValueRef) then w' == w
              else if fields[i] == CharData then w.to - 3 in ren && w' == Ptr(ren[w.to - 3] + 3)
              else w.to in ren && w' == Ptr(ren[w.to])
  {
    hide Preserved;
    WordIsCopied(v, c, ren, a, 2);
    forall i {:trigger fields[i]} | 0 <= i < |fields|
      ensures var w, w' := At(v.mem, a + 2 + i), At(c.mem, ren[a] + 2 + i);
              if fields[i] == Raw || !w.Ptr? || (w.to == 0 && fields[i] != ValueRef) then w' == w
              else if fields[i] == CharData then w.to - 3 in ren && w' == Ptr(ren[w.to - 3] + 3)
              else w.to in ren && w' == Ptr(ren[w.to])
    {
      WordIsCopied(v, c, ren, a, 2 + i);
      assert a + (2 + i) == a + 2 + i && ren[a] + (2 + i) == ren[a] + 2 + i;
    }
  }

  /** A block keeps all its words. */
  lemma BlockIsCopied(v: View, c: View, ren: map<Addr, Addr>, a: Addr, n: int)
    requires Preserved(v, c, ren) && a in ren && 3 <= n
    requires At(v.mem, a + 1).Bits? && At(v.mem, a + 1).kind == Block && At(v.mem, a + 2) == Num(n)
    ensures At(c.mem, ren[a] + 1).Bits? && At(c.mem, ren[a] + 1).kind == Block
    ensures forall s {:trigger At(v.mem, s)} :: a + 2 <= s < a + n ==> At(c.mem, ren[a] + (s - a)) == At(v.mem, s)
  {
    hide Preserved;
    WordIsCopied(v, c, ren, a, 2);
    forall s {:trigger At(v.mem, s)} | a + 2 <= s < a + n
      ensures At(c.mem, ren[a] + (s - a)) == At(v.mem, s)
    {
      WordIsCopied(v, c, ren, a, s - a);
    }
  }

  /** The roots are renamed like fields. */
  lemma RootIsCopied(v: View, c: View, ren: map<Addr, Addr>, i: nat)
    requires Preserved(v, c, ren) && i < |v.roots|
    ensures var w, w' := At(v.mem, v.roots[i].at), At(c.mem, v.roots[i].at);
            if v.roots[i].sort == Raw || !w.Ptr? || (w.to == 0 && v.roots[i].sort != ValueRef) then w' == w
            else if v.roots[i].sort == CharData then w.to - 3 in ren && w' == Ptr(ren[w.to - 3] + 3)
            else w.to in ren && w' == Ptr(ren[w.to])
  {
    assert RootCopied(v, c, ren, i);
  }

  // ----- what a program can do with it -----------------------------------------------------------

  /** Every entry of a tuple can be stored into and loaded from. */
  lemma EntryIsAccessible(s: Snapshot, holder: nat, o: Addr, n: int, i: nat, other: nat)
    requires s.current < |s.regions| && holder < |s.roots| && other < |s.roots|
    requires s.roots[holder].sort in {ValueRef, PointerRef} && At(s.mem, s.roots[holder].at) == Ptr(o) && o != 0
    requires At(s.mem, o + 1).Bits? && At(s.mem, o + 2) == Num(n) && i < n
    ensures At(s.mem, o + 1).kind == ValueTuple && s.roots[other].sort == ValueRef ==>
              Enabled(s, Store(holder, 3 + i, other)) && Enabled(s, Load(other, holder, 3 + i))
    ensures At(s.mem, o + 1).kind == PointerTuple && s.roots[other].sort == PointerRef ==>
              Enabled(s, Store(holder, 3 + i, other)) && Enabled(s, Load(other, holder, 3 + i))
    ensures RootDenotes(s, holder) && RootObject(s, holder) == o
  {
  }

  /** So can every field of a record that is no raw word, with a root of its sort. */
  lemma FieldIsAccessible(s: Snapshot, holder: nat, o: Addr, fields: seq<Sort>, i: nat, other: nat)
    requires s.current < |s.regions| && holder < |s.roots| && other < |s.roots|
    requires s.roots[holder].sort in {ValueRef, PointerRef} && At(s.mem, s.roots[holder].at) == Ptr(o) && o != 0
    requires At(s.mem, o + 1).Bits? && At(s.mem, o + 1).kind == Record(fields) && i < |fields|
    requires s.roots[other].sort == fields[i] && fields[i] != Raw
    ensures Enabled(s, Store(holder, 2 + i, other)) && Enabled(s, Load(other, holder, 2 + i))
    ensures RootDenotes(s, holder) && RootObject(s, holder) == o
  {
  }

  /** A collection is possible whenever some region is not empty. */
  lemma CollectionIsPossible(s: Snapshot, r: nat)
    requires s.current < |s.regions| && r < |s.regions| && s.regions[r].pos != s.regions[r].data
    ensures Enabled(s, Collect)
  {
  }

  /** The root refers to the new object, whose header says what was asked for; nothing else that
      roots refer to has changed. */
  lemma NewlyAllocated(m: Moment, c: Moment, root: nat, home: Home, kind: Kind, n: nat, os: Addr) returns (o: Addr)
    requires Goes(m.state, m.objs) && Enabled(m.state, Allocate(root, home, kind, n, os))
    requires Stepped(m, c, Allocate(root, home, kind, n, os)) && Goes(c.state, c.objs)
    ensures o > 0 && c.state.roots == m.state.roots
    ensures At(c.state.mem, m.state.roots[root].at) == if kind == Block then Ptr(o + 3) else Ptr(o)
    ensures At(c.state.mem, o + 1) == Bits(kind, false)
    ensures kind in {ValueTuple, PointerTuple} ==> At(c.state.mem, o + 2) == Num(n)
    ensures forall k, a {:trigger WithinObj(a, ViewOf(m.state, m.objs).ObjAt(k))} ::
              0 <= k < ViewOf(m.state, m.objs).Count() && WithinObj(a, ViewOf(m.state, m.objs).ObjAt(k)) ==>
                At(c.state.mem, a) == At(m.state.mem, a)
    ensures forall j {:trigger m.state.roots[j]} :: 0 <= j < |m.state.roots| && j != root ==>
              At(c.state.mem, m.state.roots[j].at) == At(m.state.mem, m.state.roots[j].at)
  {
    hide Goes, Enabled, Stepped, HeaderOk, IsSlot, View.Valid, Added, Placed, SizeOf;
    var v := ViewOf(m.state, m.objs);
    IsValid(m);
    CanBeAllocated(m.state, root, home, kind, n, os);
    var between, i, obj := Between(m, c, root, home, kind, n, os);
    o := obj.at;
    NewHeader(v, ViewOf(between.state, between.objs), i, obj, kind, n);
    OldWords(v, ViewOf(between.state, between.objs), i, obj, root);
  }

  /** A program can allocate whenever a root of the fitting sort is there and the object fits: a small
      one at the end of the current region, or in a new region the platform has room for, and a big
      tuple or block, or one that is to be pinned, where the platform has room. */
  lemma AllocationIsPossible(s: Snapshot, root: nat, home: Home, kind: Kind, n: nat, os: Addr)
    requires s.current < |s.regions| && 1 <= s.pages && root < |s.roots|
    requires kind != FreeRun && (kind.Record? ==> |kind.fields| >= 1)
    requires if kind == Block then s.roots[root].sort == CharData else s.roots[root].sort in {ValueRef, PointerRef}
    ensures var size := if kind.Record? then 2 + |kind.fields| else 3 + n;
            var current := s.regions[s.current];
            var big := !kind.Record? && 3 + n > 512 / 8;
            && (home == Regions && !big && current.pos + size <= current.end ==>
                  Enabled(s, Allocate(root, home, kind, n, os)))
            && (home == Regions && !big && current.pos + size > current.end && size <= 512 - 4
                && Unused(s.mem, s.regions, s.pinned, s.symbols, s.roots, os, s.pages * 512) ==>
                  Enabled(s, Allocate(root, home, kind, n, os)))
            && (((home == Regions && big) || (home != Regions && kind.Record?))
                && Unused(s.mem, s.regions, s.pinned, s.symbols, s.roots, os, size) ==>
                  Enabled(s, Allocate(root, home, kind, n, os)))
  {
    hide Unused;
  }

  lemma CanBeAllocated(s: Snapshot, root: nat, home: Home, kind: Kind, n: nat, os: Addr)
    requires s.current < |s.regions| && Enabled(s, Allocate(root, home, kind, n, os))
    ensures kind != FreeRun
  {
  }

  lemma Between(m: Moment, c: Moment, root: nat, home: Home, kind: Kind, n: nat, os: Addr)
    returns (between: Moment, i: int, o: Obj)
    requires m.state.current < |m.state.regions| && Enabled(m.state, Allocate(root, home, kind, n, os))
    requires Stepped(m, c, Allocate(root, home, kind, n, os))
    ensures Allocated(m, c, root, home, kind, n, os, between, i, o)
  {
    hide Enabled, Allocated;
    between, i, o :| Allocated(m, c, root, home, kind, n, os, between, i, o);
  }

  lemma NewHeader(v: View, c: View, i: int, o: Obj, kind: Kind, n: nat)
    requires Added(v, c, i, o) && o.size == SizeOf(kind, n) && KindAt(c.mem, o.at) == kind && kind != FreeRun
    ensures o.at > 0 && c.roots == v.roots && At(c.mem, o.at + 1) == Bits(kind, false)
    ensures kind in {ValueTuple, PointerTuple} ==> At(c.mem, o.at + 2) == Num(n)
    ensures forall j {:trigger v.roots[j]} :: 0 <= j < |v.roots| ==> !WithinObj(v.roots[j].at, o)
    ensures WithinObj(o.at + 1, o) && WithinObj(o.at + 2, o)
  {
    forall j {:trigger v.roots[j]} | 0 <= j < |v.roots| ensures !WithinObj(v.roots[j].at, o) {
      assert RootApartFrom(v, o, j);
    }
  }

  /** The words of the objects there were, and of the roots but one, are as before. */
  lemma OldWords(v: View, c: View, i: int, o: Obj, root: nat)
    requires v.Valid() && Added(v, c, i, o) && root < |v.roots|
    ensures forall k, a {:trigger WithinObj(a, v.ObjAt(k))} ::
              0 <= k < v.Count() && WithinObj(a, v.ObjAt(k)) ==> At(c.mem, a) == At(v.mem, a) && a != v.roots[root].at
    ensures forall j {:trigger v.roots[j]} :: 0 <= j < |v.roots| ==>
              At(c.mem, v.roots[j].at) == At(v.mem, v.roots[j].at) && (j != root ==> v.roots[j].at != v.roots[root].at)
  {
    forall k, a {:trigger WithinObj(a, v.ObjAt(k))} | 0 <= k < v.Count() && WithinObj(a, v.ObjAt(k))
      ensures At(c.mem, a) == At(v.mem, a) && a != v.roots[root].at
    {
      assert ApartFrom(v, o, k) && v.RootOutsideObj(root, k);
    }
    forall j {:trigger v.roots[j]} | 0 <= j < |v.roots|
      ensures At(c.mem, v.roots[j].at) == At(v.mem, v.roots[j].at) && (j != root ==> v.roots[j].at != v.roots[root].at)
    {
      assert RootApartFrom(v, o, j);
      assert j < root ==> v.RootsDistinct(j, root);
      assert root < j ==> v.RootsDistinct(root, j);
    }
  }

  /** A root refers to a tuple of n entries, and entry i is w. */
  predicate HasEntry(s: Snapshot, holder: nat, n: int, i: nat, w: Word) {
    && holder < |s.roots| && s.roots[holder].sort in {ValueRef, PointerRef}
    && At(s.mem, s.roots[holder].at).Ptr? && At(s.mem, s.roots[holder].at).to != 0
    && var o := At(s.mem, s.roots[holder].at).to;
       && At(s.mem, o + 1).Bits? && At(s.mem, o + 1).kind == ValueTuple && At(s.mem, o + 2) == Num(n)
       && i < n && At(s.mem, o + 3 + i) == w
  }

  /** An operation that is enabled has its effect, and any other has none. */
  lemma Step(run: seq<Moment>, ops: seq<Op>, i: nat)
    requires Steps(run, ops) && i < |ops|
    ensures i + 1 < |run| && Goes(run[i].state, run[i].objs) && Goes(run[i + 1].state, run[i + 1].objs)
    ensures Enabled(run[i].state, ops[i]) ==> Stepped(run[i], run[i + 1], ops[i])
    ensures !Enabled(run[i].state, ops[i]) ==> run[i + 1] == run[i]
  {
    hide Goes, Enabled, Stepped;
    assert StepOf(run, ops, i);
  }

  /** What a root refers to is an object of the heap. */
  lemma RootObjectAt(v: View, i: nat, o: Addr) returns (k: int)
    requires v.Valid() && i < |v.roots| && v.roots[i].sort in {ValueRef, PointerRef}
    requires At(v.mem, v.roots[i].at) == Ptr(o) && o != 0
    ensures 0 <= k < v.Count() && v.ObjAt(k).at == o && HeaderOk(v.mem, v.ObjAt(k)) && o in Reach(v)
    ensures forall j {:trigger v.roots[j]} :: 0 <= j < |v.roots| ==> !WithinObj(v.roots[j].at, v.ObjAt(k))
  {
    assert v.RootOk(i);
    k :| 0 <= k < v.Count() && v.ObjAt(k).at == o;
    assert v.ObjOk(k) && RootRefersTo(v, i, o);
    RootIsReachable(v, o);
    forall j {:trigger v.roots[j]} | 0 <= j < |v.roots| ensures !WithinObj(v.roots[j].at, v.ObjAt(k)) {
      assert v.RootOutsideObj(j, k);
    }
  }

  /** A new object leaves a tuple another root refers to alone. */
  lemma AllocationKeepsEntries(m: Moment, c: Moment, root: nat, home: Home, kind: Kind, size: nat, os: Addr,
                               holder: nat, n: int, i: nat, w: Word)
    requires Goes(m.state, m.objs) && Enabled(m.state, Allocate(root, home, kind, size, os))
    requires Stepped(m, c, Allocate(root, home, kind, size, os)) && Goes(c.state, c.objs)
    requires holder != root && HasEntry(m.state, holder, n, i, w)
    ensures HasEntry(c.state, holder, n, i, w)
    ensures At(c.state.mem, c.state.roots[holder].at) == At(m.state.mem, m.state.roots[holder].at)
  {
    hide Goes, Enabled, Stepped;
    var _ := NewlyAllocated(m, c, root, home, kind, size, os);
    var v := ViewOf(m.state, m.objs);
    assert v.Valid() by { IsValid(m); }
    var o := At(m.state.mem, m.state.roots[holder].at).to;
    var k := RootObjectAt(v, holder, o);
    assert m.state.roots[holder] == v.roots[holder];
    assert WithinObj(o + 1, v.ObjAt(k)) && WithinObj(o + 2, v.ObjAt(k)) && WithinObj(o + 3 + i, v.ObjAt(k));
  }

  lemma IsValid(m: Moment)
    requires Goes(m.state, m.objs)
    ensures ViewOf(m.state, m.objs).Valid() && m.state.current < |m.state.regions|
  {
  }

  /** After a store into an entry of a tuple the entry holds what the root held. */
  lemma StoredEntry(m: Moment, c: Moment, holder: nat, from: nat, n: int, i: nat, w: Word)
    requires Goes(m.state, m.objs) && HasEntry(m.state, holder, n, i, w)
    requires from < |m.state.roots| && m.state.roots[from].sort == ValueRef
    ensures Enabled(m.state, Store(holder, 3 + i, from))
    ensures Stepped(m, c, Store(holder, 3 + i, from)) ==>
              && c.state.roots == m.state.roots
              && HasEntry(c.state, holder, n, i, At(m.state.mem, m.state.roots[from].at))
              && At(c.state.mem, c.state.roots[from].at) == At(m.state.mem, m.state.roots[from].at)
  {
    var o := At(m.state.mem, m.state.roots[holder].at).to;
    EntryIsAccessible(m.state, holder, o, n, i, from);
    var v := ViewOf(m.state, m.objs);
    var k := RootObjectAt(v, holder, o);
    assert !WithinObj(v.roots[holder].at, v.ObjAt(k)) && !WithinObj(v.roots[from].at, v.ObjAt(k));
  }

  /** After a collection the tuple is there with the entry renamed. */
  lemma CollectedEntry(m: Moment, c: Moment, holder: nat, n: int, i: nat, b: Addr) returns (ren: map<Addr, Addr>)
    requires Goes(m.state, m.objs) && Goes(c.state, c.objs) && HasEntry(m.state, holder, n, i, Ptr(b))
    requires Enabled(m.state, Collect) && Stepped(m, c, Collect)
    ensures Preserved(ViewOf(m.state, m.objs), ViewOf(c.state, c.objs), ren) && c.state.roots == m.state.roots
    ensures b in ren && HasEntry(c.state, holder, n, i, Ptr(ren[b]))
  {
    hide Enabled, HasEntry, Preserved, View.Valid;
    var v, d := ViewOf(m.state, m.objs), ViewOf(c.state, c.objs);
    ren :| Preserved(v, d, ren);
    SameRoots(v, d, ren);
    EntryIsCopied(m.state, c.state, v, d, ren, holder, n, i, b);
  }

  lemma SameRoots(v: View, c: View, ren: map<Addr, Addr>)
    requires Preserved(v, c, ren)
    ensures c.roots == v.roots
  {
  }

  lemma EntryIsCopied(s: Snapshot, s': Snapshot, v: View, c: View, ren: map<Addr, Addr>, holder: nat, n: int, i: nat,
                      b: Addr)
    requires v.Valid() && c.Valid() && Preserved(v, c, ren) && s'.roots == s.roots && HasEntry(s, holder, n, i, Ptr(b))
    requires v.mem == s.mem && v.roots == s.roots && c.mem == s'.mem
    ensures b in ren && HasEntry(s', holder, n, i, Ptr(ren[b]))
  {
    hide Preserved, View.Valid;
    var o := At(s.mem, s.roots[holder].at).to;
    var _ := RootObjectAt(v, holder, o);
    RootIsCopied(v, c, ren, holder);
    TupleIsCopied(v, c, ren, o, n);
    NewIsNotNull(v, c, ren, o);
    assert At(v.mem, o + 3 + i) == Ptr(b);
    assert ren[o] + (o + 3 + i - o) == ren[o] + 3 + i;
  }

  /** Whatever entry of a new tuple a new object is stored into: the store is possible, and after a
      collection so is the load, and it gives the object where it is now. */
  lemma StoredObjectIsLoaded(run: seq<Moment>, ops: seq<Op>, t: nat, x: nat, y: nat, n: nat, i: nat, at: Addr,
                             home: Home, kind: Kind, size: nat, os: Addr) returns (ren: map<Addr, Addr>)
    requires ops == [Allocate(t, Regions, ValueTuple, n, at), Allocate(x, home, kind, size, os), Store(t, 3 + i, x),
                     Collect, Load(y, t, 3 + i)]
    requires Steps(run, ops) && |run| == 6 && Goes(run[0].state, run[0].objs) && Goes(run[1].state, run[1].objs)
    requires Goes(run[2].state, run[2].objs) && Goes(run[3].state, run[3].objs) && Goes(run[4].state, run[4].objs)
    requires Enabled(run[0].state, ops[0]) && Enabled(run[1].state, ops[1]) && Enabled(run[3].state, Collect)
    requires i < n && t != x && kind != Block
    requires t < |run[0].state.roots| && x < |run[0].state.roots| && y < |run[0].state.roots|
    requires run[0].state.roots[t].sort in {ValueRef, PointerRef}
    requires run[0].state.roots[x].sort == ValueRef && run[0].state.roots[y].sort == ValueRef
    ensures Enabled(run[2].state, ops[2]) && Enabled(run[4].state, ops[4])
    ensures Preserved(ViewOf(run[3].state, run[3].objs), ViewOf(run[4].state, run[4].objs), ren)
    ensures var roots := run[0].state.roots;
            var b := At(run[2].state.mem, roots[x].at);
            && b.Ptr? && At(run[2].state.mem, b.to + 1) == Bits(kind, false) && b.to in ren
            && run[5].state.roots == roots && At(run[5].state.mem, roots[y].at) == Ptr(ren[b.to])
  {
    hide View.Valid, Enabled, Stepped, HasEntry, Preserved;
    Step(run, ops, 0);
    Step(run, ops, 1);
    Step(run, ops, 2);
    Step(run, ops, 3);
    Step(run, ops, 4);
    var o := NewlyAllocated(run[0], run[1], t, Regions, ValueTuple, n, at);
    var e := At(run[1].state.mem, o + 3 + i);
    FirstEntry(run[1].state, t, o, n, i);
    var b := NewlyAllocated(run[1], run[2], x, home, kind, size, os);
    AllocationKeepsEntries(run[1], run[2], x, home, kind, size, os, t, n, i, e);
    StoredEntry(run[2], run[3], t, x, n, i, e);
    ren := CollectedEntry(run[3], run[4], t, n, i, b);
    LoadedEntry(run[4], run[5], t, y, n, i, Ptr(ren[b]));
  }

  lemma FirstEntry(s: Snapshot, t: nat, o: Addr, n: nat, i: nat)
    requires t < |s.roots| && s.roots[t].sort in {ValueRef, PointerRef} && At(s.mem, s.roots[t].at) == Ptr(o) && o > 0
    requires At(s.mem, o + 1) == Bits(ValueTuple, false) && At(s.mem, o + 2) == Num(n) && i < n
    ensures HasEntry(s, t, n, i, At(s.mem, o + 3 + i))
  {
  }

  /** A load from an entry gives the root what the entry holds. */
  lemma LoadedEntry(m: Moment, c: Moment, holder: nat, into: nat, n: int, i: nat, w: Word)
    requires Goes(m.state, m.objs) && HasEntry(m.state, holder, n, i, w)
    requires into < |m.state.roots| && m.state.roots[into].sort == ValueRef
    ensures Enabled(m.state, Load(into, holder, 3 + i))
    ensures Stepped(m, c, Load(into, holder, 3 + i)) ==>
              c.state.roots == m.state.roots && At(c.state.mem, c.state.roots[into].at) == w
  {
    var o := At(m.state.mem, m.state.roots[holder].at).to;
    EntryIsAccessible(m.state, holder, o, n, i, into);
  }
}
