/** Assignment to several variables at once, from the elements of one value: how targets are
    numbered, the code for them, what it assigns and when that is what it should. */
module Destructuring {
  import opened Registers

  /** Splats stand in lists; one without a name takes its elements and stores them nowhere. */
  datatype Target = Variable(home: Home) | Multiple(list: seq<Target>) | Splat(into: Option<Home>)

  // ----- numbering -------------------------------------------------------------------------------

  function Items(list: seq<Target>, n: nat): (r: nat)
    requires n <= |list|
    ensures r <= n
  {
    if n == 0 then 0 else Items(list, n - 1) + if !list[n - 1].Splat? then 1 else 0
  }

  function Splats(list: seq<Target>, n: nat): (r: nat)
    requires n <= |list|
  {
    if n == 0 then 0 else Splats(list, n - 1) + if list[n - 1].Splat? then 1 else 0
  }

  /** How many items stand before the last splat. */
  function Before(list: seq<Target>, n: nat): (r: nat)
    requires n <= |list|
    ensures r <= Items(list, n)
  {
    if n == 0 then 0 else if list[n - 1].Splat? then Items(list, n - 1) else Before(list, n - 1)
  }

  /** The number of entry k: upwards from 0, and downwards from -1 behind a splat. */
  function IndexAt(list: seq<Target>, k: nat): int
    requires k <= |list|
  {
    if k == 0 then 0
    else if list[k - 1].Splat? then -1
    else IndexAt(list, k - 1) + if Splats(list, k - 1) > 0 then -1 else 1
  }

  /** process_multiple_lhs; two splats are an error. */
  method Number(list: seq<Target>) returns (indexes: seq<int>, sizes: seq<nat>, splatIndex: int, count: nat, ok: bool)
    ensures |indexes| == |sizes| == |list|
    ensures forall k {:trigger indexes[k]} {:trigger sizes[k]} ::
      0 <= k < |list| ==> indexes[k] == IndexAt(list, k) && sizes[k] == Items(list, k)
    ensures splatIndex == if Splats(list, |list|) > 0 then Before(list, |list|) else -1
    ensures count == Items(list, |list|) && (ok <==> Splats(list, |list|) <= 1)
  {
    indexes, sizes, ok := [], [], true;
    var seenSplat, size, index, offset := false, 0, 0, 1;
    splatIndex := -1;
    for k := 0 to |list|
      invariant |indexes| == |sizes| == k && size == Items(list, k) && index == IndexAt(list, k)
      invariant forall j {:trigger indexes[j]} {:trigger sizes[j]} ::
        0 <= j < k ==> indexes[j] == IndexAt(list, j) && sizes[j] == Items(list, j)
      invariant (seenSplat <==> Splats(list, k) > 0) && (ok <==> Splats(list, k) <= 1)
      invariant offset == (if seenSplat then -1 else 1) && splatIndex == if seenSplat then Before(list, k) else -1
    {
      indexes, sizes := indexes + [index], sizes + [size];
      if list[k].Splat? {
        splatIndex := size;
        index, offset := -1, -1;
        if seenSplat {
          ok := false;
        }
        seenSplat := true;
      } else {
        size := size + 1;
        index := index + offset;
      }
    }
    count := size;
  }

  lemma {:induction false} IndexIs(list: seq<Target>, k: nat)
    requires k <= |list|
    ensures Before(list, k) <= Items(list, k) && Items(list, k) + Splats(list, k) == k
    ensures IndexAt(list, k) == if Splats(list, k) == 0 then Items(list, k) else -1 - (Items(list, k) - Before(list, k))
  {
    if k > 0 {
      IndexIs(list, k - 1);
    }
  }

  lemma {:induction false} ItemsGrow(list: seq<Target>, m: nat, n: nat)
    requires m <= n <= |list|
    ensures Items(list, m) <= Items(list, n) && Splats(list, m) <= Splats(list, n)
    ensures m < n && !list[m].Splat? ==> Items(list, m) < Items(list, n)
    ensures m < n && list[m].Splat? ==> Splats(list, m) < Splats(list, n)
    ensures Splats(list, m) == Splats(list, n) ==> Before(list, m) == Before(list, n)
    decreases n
  {
    if m < n {
      ItemsGrow(list, m, n - 1);
    }
  }

  // ----- code ------------------------------------------------------------------------------------

  /** write_node, from where the value is in register t on; next is the next free register. */
  function StoresCode(l: Layout, target: Target, t: nat, next: nat): seq<Instr>
    requires !target.Splat?
    decreases target
  {
    match target
    case Variable(home) => [StoreCode(l, home, t)]
    case Multiple(list) => [NewArray(next), PushArray(next, t)] + EntriesCode(l, list, |list|, next, next + 1, next + 2)
  }

  function TargetTop(target: Target, next: nat): (r: nat)
    ensures r >= next
    decreases target
  {
    match target
    case Variable(_) => next
    case Splat(_) => next
    case Multiple(list) => EntriesTop(list, |list|, next + 2)
  }

  function EntriesTop(list: seq<Target>, n: nat, next: nat): (r: nat)
    requires n <= |list|
    ensures r >= next
    decreases list, n
  {
    if n == 0 then next else TargetTop(list[n - 1], EntriesTop(list, n - 1, next))
  }

  /** convert_multiple_assignment, for entry k */
  function EntryCode(l: Layout, list: seq<Target>, k: nat, rhs: nat, temp: nat, next: nat): seq<Instr>
    requires k < |list|
    decreases list, k
  {
    match list[k]
    case Splat(None) => []
    case Splat(Some(home)) =>
      [AssignArray(temp, rhs, Before(list, |list|), Items(list, |list|)), StoreCode(l, home, temp)]
    case _ =>
      [Assign(temp, rhs, IndexAt(list, k), Items(list, k))] + StoresCode(l, list[k], temp, EntriesTop(list, k, next))
  }

  function EntriesCode(l: Layout, list: seq<Target>, n: nat, rhs: nat, temp: nat, next: nat): seq<Instr>
    requires n <= |list|
    decreases list, n
  {
    if n == 0 then []
    else EntriesCode(l, list, n - 1, rhs, temp, next) + EntryCode(l, list, n - 1, rhs, temp, next)
  }

  method WriteNode(l: Layout, target: Target, load: Instr, t: nat, before: seq<Instr>, next: nat)
    returns (code: seq<Instr>, top: nat)
    requires !target.Splat?
    ensures code == before + [load] + StoresCode(l, target, t, next) && top == TargetTop(target, next)
    decreases target
  {
    match target
    case Variable(home) =>
      code, top := before + [load] + [StoreCode(l, home, t)], next;
    case Multiple(list) =>
      var rhs := next;
      code := before + [load] + [NewArray(rhs), PushArray(rhs, t)];
      code, top := MultipleAssignment(l, list, rhs, code, next + 1);
      assert code == before + [load] + ([NewArray(rhs), PushArray(rhs, t)]
                                        + EntriesCode(l, list, |list|, next, next + 1, next + 2));
  }

  method MultipleAssignment(l: Layout, list: seq<Target>, rhs: nat, before: seq<Instr>, next: nat)
    returns (code: seq<Instr>, top: nat)
    ensures code == before + EntriesCode(l, list, |list|, rhs, next, next + 1)
    ensures top == EntriesTop(list, |list|, next + 1)
    decreases list
  {
    var indexes, sizes, splatIndex, count, _ := Number(list);
    var temp := next;
    code, top := before, next + 1;
    for k := 0 to |list|
      invariant code == before + EntriesCode(l, list, k, rhs, temp, next + 1) && top == EntriesTop(list, k, next + 1)
    {
      match list[k]
      case Splat(None) =>
      case Splat(Some(home)) =>
        ItemsGrow(list, k, |list|);
        code := code + [AssignArray(temp, rhs, splatIndex, count)] + [StoreCode(l, home, temp)];
      case _ =>
        code, top := WriteNode(l, list[k], Assign(temp, rhs, indexes[k], sizes[k]), temp, code, top);
    }
  }

  // ----- what is assigned ------------------------------------------------------------------------

  function ElementOf(xs: seq<Value>, i: int): Value {
    if 0 <= i < |xs| then xs[i] else Nil
  }

  /** As the instructions do it, or as the language means it. */
  datatype Way = AsCoded | AsMeant

  /** The element item k gets.  In the language, items before a splat take elements from the front,
      and those behind it from the end, but none that items before them have taken; within both, the
      order is that of the elements. */
  function Element(list: seq<Target>, k: nat, xs: seq<Value>, way: Way): Value
    requires k < |list|
  {
    var size, count := Items(list, k), Items(list, |list|);
    match way
    case AsCoded =>
      if |xs| <= size then Nil
      else if IndexAt(list, k) >= 0 then xs[size]
      else ElementOf(xs, IndexAt(list, k) + |xs|)
    case AsMeant =>
      if Splats(list, k) == 0 || |xs| < count then ElementOf(xs, size) else ElementOf(xs, |xs| - (count - size))
  }

  /** What items leave over. */
  function LeftOver(list: seq<Target>, xs: seq<Value>): seq<Value> {
    var before, count := Before(list, |list|), Items(list, |list|);
    if |xs| <= count then [] else xs[before..|xs| - (count - before)]
  }

  function Given(list: seq<Target>, k: nat, xs: seq<Value>, way: Way): Value
    requires k < |list|
  {
    if list[k].Splat? then Array(LeftOver(list, xs)) else Element(list, k, xs, way)
  }

  /** The variables of a target, in order. */
  function Homes(target: Target): seq<Home>
    decreases target
  {
    match target
    case Variable(home) => [home]
    case Splat(into) => if into.Some? then [into.value] else []
    case Multiple(list) => EntryHomes(list, |list|)
  }

  function EntryHomes(list: seq<Target>, n: nat): seq<Home>
    requires n <= |list|
    decreases list, n
  {
    if n == 0 then [] else EntryHomes(list, n - 1) + Homes(list[n - 1])
  }

  /** The values of a target's variables when it is assigned x. */
  function Values(target: Target, x: Value, way: Way): (r: seq<Value>)
    ensures |r| == |Homes(target)|
    decreases target
  {
    match target
    case Variable(_) => [x]
    case Splat(into) => if into.Some? then [x] else []
    case Multiple(list) => EntryValues(list, |list|, Elements(x), way)
  }

  function EntryValues(list: seq<Target>, n: nat, xs: seq<Value>, way: Way): (r: seq<Value>)
    requires n <= |list|
    ensures |r| == |EntryHomes(list, n)|
    decreases list, n
  {
    if n == 0 then [] else EntryValues(list, n - 1, xs, way) + Values(list[n - 1], Given(list, n - 1, xs, way), way)
  }

  // ----- the code assigns it ---------------------------------------------------------------------

  /** The storage when x has gone from register t to the variables of the target. */
  function Spread(target: Target, x: Value, st: Storage, t: nat, next: nat): (r: Storage)
    requires t < |st.vars| && TargetTop(target, next) <= |st.vars|
    ensures |r.vars| == |st.vars|
    decreases target
  {
    match target
    case Variable(home) => Stored(st, home, x, t)
    case Splat(into) => if into.Some? then Stored(st, into.value, x, t) else st
    case Multiple(list) =>
      SpreadEntries(list, |list|, Elements(x), st.(vars := st.vars[t := x][next := Array(Elements(x))]),
                    next + 1, next + 2)
  }

  function SpreadEntries(list: seq<Target>, n: nat, xs: seq<Value>, st: Storage, temp: nat, next: nat): (r: Storage)
    requires n <= |list| && temp < |st.vars| && EntriesTop(list, n, next) <= |st.vars|
    ensures |r.vars| == |st.vars|
    decreases list, n
  {
    if n == 0 then st
    else
      var before := SpreadEntries(list, n - 1, xs, st, temp, next);
      Spread(list[n - 1], Given(list, n - 1, xs, AsCoded), before, temp, EntriesTop(list, n - 1, next))
  }

  predicate AreHomes(l: Layout, homes: seq<Home>) {
    forall i {:trigger homes[i]} :: 0 <= i < |homes| ==> IsHome(l, homes[i])
  }

  predicate AllDifferent(homes: seq<Home>) {
    forall i, j {:trigger homes[i], homes[j]} :: 0 <= i < j < |homes| ==> homes[i] != homes[j]
  }

  /** Only the target's variables change, and temporary registers that were free. */
  ghost predicate Untouched(l: Layout, homes: seq<Home>, st: Storage, st': Storage, t: nat, next: nat) {
    && |st'.vars| == |st.vars|
    && (forall home :: IsHome(l, home) && home !in homes ==> Get(st', home) == Get(st, home))
    && (forall r :: l.temps <= r < next && r != t && r < |st.vars| ==> st'.vars[r] == st.vars[r])
  }

  predicate Fits(l: Layout, st: Storage, t: nat, next: nat, top: nat) {
    && LayoutOk(l) && Ready(l, |st.vars|, st) && IsTemp(l, t) && t < |st.vars| && top <= |st.vars|
    && l.temps <= next && t < next
  }

  lemma {:induction false} SpreadKeeps(l: Layout, target: Target, x: Value, st: Storage, t: nat, next: nat)
    requires Fits(l, st, t, next, TargetTop(target, next)) && AreHomes(l, Homes(target))
    ensures Ready(l, |st.vars|, Spread(target, x, st, t, next))
    ensures Untouched(l, Homes(target), st, Spread(target, x, st, t, next), t, next)
    decreases target
  {
    match target
    case Variable(home) =>
      assert Homes(target)[0] == home;
      StoredIsThere(l, |st.vars|, st, home, x, t);
    case Splat(None) =>
    case Splat(Some(home)) =>
      assert Homes(target)[0] == home;
      StoredIsThere(l, |st.vars|, st, home, x, t);
    case Multiple(list) =>
      var loaded := st.(vars := st.vars[t := x]);
      TempIsApart(l, |st.vars|, st, t, x);
      TempIsApart(l, |st.vars|, loaded, next, Array(Elements(x)));
      EntriesKeep(l, list, |list|, Elements(x), loaded.(vars := loaded.vars[next := Array(Elements(x))]),
                  next + 1, next + 2);
  }

  lemma {:induction false} EntriesKeep(l: Layout, list: seq<Target>, n: nat, xs: seq<Value>, st: Storage, temp: nat,
                                       next: nat)
    requires n <= |list| && Fits(l, st, temp, next, EntriesTop(list, n, next)) && AreHomes(l, EntryHomes(list, n))
    ensures Ready(l, |st.vars|, SpreadEntries(list, n, xs, st, temp, next))
    ensures Untouched(l, EntryHomes(list, n), st, SpreadEntries(list, n, xs, st, temp, next), temp, next)
    decreases list, n
  {
    if n > 0 {
      HomesSplit(l, EntryHomes(list, n - 1), Homes(list[n - 1]));
      EntriesKeep(l, list, n - 1, xs, st, temp, next);
      SpreadKeeps(l, list[n - 1], Given(list, n - 1, xs, AsCoded), SpreadEntries(list, n - 1, xs, st, temp, next), temp,
                  EntriesTop(list, n - 1, next));
    }
  }

  lemma HomesSplit(l: Layout, a: seq<Home>, b: seq<Home>)
    requires AreHomes(l, a + b)
    ensures AreHomes(l, a) && AreHomes(l, b)
  {
    assert forall i {:trigger a[i]} :: 0 <= i < |a| ==> (a + b)[i] == a[i];
    assert forall i {:trigger b[i]} :: 0 <= i < |b| ==> (a + b)[|a| + i] == b[i];
  }

  lemma DifferentSplit(a: seq<Home>, b: seq<Home>)
    requires AllDifferent(a + b)
    ensures AllDifferent(a) && AllDifferent(b) && forall i {:trigger a[i]} :: 0 <= i < |a| ==> a[i] !in b
  {
    assert forall i {:trigger a[i]} :: 0 <= i < |a| ==> (a + b)[i] == a[i];
    assert forall i {:trigger b[i]} :: 0 <= i < |b| ==> (a + b)[|a| + i] == b[i];
  }

  predicate Hold(st: Storage, homes: seq<Home>, values: seq<Value>) {
    |values| == |homes| && forall i {:trigger homes[i]} :: 0 <= i < |homes| ==> Get(st, homes[i]) == values[i]
  }

  lemma HoldMore(l: Layout, st: Storage, st': Storage, a: seq<Home>, va: seq<Value>, b: seq<Home>, vb: seq<Value>,
                 t: nat, next: nat)
    requires AreHomes(l, a) && AllDifferent(a + b) && Untouched(l, b, st, st', t, next)
    requires Hold(st, a, va) && Hold(st', b, vb)
    ensures Hold(st', a + b, va + vb)
  {
    DifferentSplit(a, b);
    forall i {:trigger (a + b)[i]} | 0 <= i < |a + b| ensures Get(st', (a + b)[i]) == (va + vb)[i] {
      if i < |a| {
        assert (a + b)[i] == a[i];
      } else {
        assert (a + b)[i] == b[i - |a|];
      }
    }
  }

  /** Every variable of the target gets its value. */
  lemma {:induction false} SpreadAssigns(l: Layout, target: Target, x: Value, st: Storage, t: nat, next: nat)
    requires Fits(l, st, t, next, TargetTop(target, next))
    requires AreHomes(l, Homes(target)) && AllDifferent(Homes(target))
    ensures Hold(Spread(target, x, st, t, next), Homes(target), Values(target, x, AsCoded))
    decreases target
  {
    match target
    case Variable(home) =>
      assert Homes(target)[0] == home;
      StoredIsThere(l, |st.vars|, st, home, x, t);
    case Splat(None) =>
    case Splat(Some(home)) =>
      assert Homes(target)[0] == home;
      StoredIsThere(l, |st.vars|, st, home, x, t);
    case Multiple(list) =>
      var loaded := st.(vars := st.vars[t := x]);
      TempIsApart(l, |st.vars|, st, t, x);
      TempIsApart(l, |st.vars|, loaded, next, Array(Elements(x)));
      EntriesAssign(l, list, |list|, Elements(x), loaded.(vars := loaded.vars[next := Array(Elements(x))]),
                    next + 1, next + 2);
  }

  lemma {:induction false} EntriesAssign(l: Layout, list: seq<Target>, n: nat, xs: seq<Value>, st: Storage, temp: nat,
                                         next: nat)
    requires n <= |list| && Fits(l, st, temp, next, EntriesTop(list, n, next))
    requires AreHomes(l, EntryHomes(list, n)) && AllDifferent(EntryHomes(list, n))
    ensures Hold(SpreadEntries(list, n, xs, st, temp, next), EntryHomes(list, n), EntryValues(list, n, xs, AsCoded))
    decreases list, n
  {
    if n > 0 {
      var homes, more := EntryHomes(list, n - 1), Homes(list[n - 1]);
      HomesSplit(l, homes, more);
      DifferentSplit(homes, more);
      EntriesAssign(l, list, n - 1, xs, st, temp, next);
      EntriesKeep(l, list, n - 1, xs, st, temp, next);
      var before, top := SpreadEntries(list, n - 1, xs, st, temp, next), EntriesTop(list, n - 1, next);
      var x := Given(list, n - 1, xs, AsCoded);
      SpreadAssigns(l, list[n - 1], x, before, temp, top);
      SpreadKeeps(l, list[n - 1], x, before, temp, top);
      HoldMore(l, before, Spread(list[n - 1], x, before, temp, top), homes, EntryValues(list, n - 1, xs, AsCoded),
               more, Values(list[n - 1], x, AsCoded), temp, top);
    }
  }

  // ----- running the code ------------------------------------------------------------------------

  lemma {:induction false} RunsStores(l: Layout, target: Target, x: Value, c: Call, f: Frame, k: nat, ip: nat,
                                      st: Storage, t: nat, next: nat) returns (n: nat)
    requires !target.Splat? && Fits(l, st, t, next, TargetTop(target, next)) && AreHomes(l, Homes(target))
    requires At(c.code, ip, StoresCode(l, target, t, next))
    requires Steps(c, f, k) == Running(ip, st.(vars := st.vars[t := x]))
    ensures Steps(c, f, n) == Running(ip + |StoresCode(l, target, t, next)|, Spread(target, x, st, t, next))
    decreases target
  {
    hide Steps, Step, At, Stored, StoreCode;
    match target
    case Variable(home) =>
      assert Homes(target)[0] == home;
      AtOne(c.code, ip, StoreCode(l, home, t));
      StepStore(l, c, f, k, ip, st, home, x, t);
      n := k + 1;
    case Multiple(list) =>
      var loaded := st.(vars := st.vars[t := x]);
      var code := EntriesCode(l, list, |list|, next, next + 1, next + 2);
      AtSplit(c.code, ip, [NewArray(next), PushArray(next, t)], code);
      AtTwo(c.code, ip, NewArray(next), PushArray(next, t));
      StepsSpread(c, f, k, ip, loaded, next, t);
      TempIsApart(l, |st.vars|, st, t, x);
      TempIsApart(l, |st.vars|, loaded, next, Array(Elements(x)));
      n := RunsEntries(l, list, |list|, Elements(x), c, f, k + 2, ip + 2,
                       loaded.(vars := loaded.vars[next := Array(Elements(x))]), next, next + 1, next + 2);
  }

  lemma {:induction false} RunsEntries(l: Layout, list: seq<Target>, n: nat, xs: seq<Value>, c: Call, f: Frame, k: nat,
                                       ip: nat, st: Storage, rhs: nat, temp: nat, next: nat) returns (m: nat)
    requires n <= |list| && Fits(l, st, temp, next, EntriesTop(list, n, next)) && AreHomes(l, EntryHomes(list, n))
    requires l.temps <= rhs < next && rhs != temp && st.vars[rhs] == Array(xs)
    requires At(c.code, ip, EntriesCode(l, list, n, rhs, temp, next)) && Steps(c, f, k) == Running(ip, st)
    ensures Steps(c, f, m) == Running(ip + |EntriesCode(l, list, n, rhs, temp, next)|,
                                      SpreadEntries(list, n, xs, st, temp, next))
    decreases list, n
  {
    hide Steps, Step, At, Stored, StoreCode, IndexAt, Items, Splats, Before, Element, LeftOver;
    if n == 0 {
      m := k;
    } else {
      var code := EntriesCode(l, list, n - 1, rhs, temp, next);
      var more := EntryCode(l, list, n - 1, rhs, temp, next);
      AtSplit(c.code, ip, code, more);
      HomesSplit(l, EntryHomes(list, n - 1), Homes(list[n - 1]));
      m := RunsEntries(l, list, n - 1, xs, c, f, k, ip, st, rhs, temp, next);
      EntriesKeep(l, list, n - 1, xs, st, temp, next);
      var before, top := SpreadEntries(list, n - 1, xs, st, temp, next), EntriesTop(list, n - 1, next);
      if list[n - 1].Splat? {
        m := RunsSplat(l, list, n - 1, xs, c, f, m, ip + |code|, before, rhs, temp, top);
      } else {
        var load := Assign(temp, rhs, IndexAt(list, n - 1), Items(list, n - 1));
        AtSplit(c.code, ip + |code|, [load], StoresCode(l, list[n - 1], temp, top));
        AtOne(c.code, ip + |code|, load);
        LoadsElement(list, n - 1, xs, c, f, m, ip + |code|, before, rhs, temp);
        m := RunsStores(l, list[n - 1], Element(list, n - 1, xs, AsCoded), c, f, m + 1, ip + |code| + 1, before, temp,
                        top);
      }
    }
  }

  lemma LoadsElement(list: seq<Target>, k: nat, xs: seq<Value>, c: Call, f: Frame, n: nat, ip: nat, st: Storage,
                     rhs: nat, temp: nat)
    requires k < |list| && !list[k].Splat? && rhs < |st.vars| && temp < |st.vars| && st.vars[rhs] == Array(xs)
    requires Stands(c, f, n, ip, st, Assign(temp, rhs, IndexAt(list, k), Items(list, k)))
    ensures Steps(c, f, n + 1) == Running(ip + 1, st.(vars := st.vars[temp := Element(list, k, xs, AsCoded)]))
  {
    hide Steps, Step, IndexAt, Items;
    IndexIs(list, k);
    StepElement(c, f, n, ip, st, temp, rhs, IndexAt(list, k), Items(list, k));
  }

  lemma RunsSplat(l: Layout, list: seq<Target>, k: nat, xs: seq<Value>, c: Call, f: Frame, n: nat, ip: nat, st: Storage,
                  rhs: nat, temp: nat, next: nat) returns (m: nat)
    requires k < |list| && list[k].Splat? && Fits(l, st, temp, next, next) && AreHomes(l, Homes(list[k]))
    requires l.temps <= rhs < next && rhs != temp && st.vars[rhs] == Array(xs)
    requires At(c.code, ip, EntryCode(l, list, k, rhs, temp, next)) && Steps(c, f, n) == Running(ip, st)
    ensures Steps(c, f, m) == Running(ip + |EntryCode(l, list, k, rhs, temp, next)|,
                                      Spread(list[k], Given(list, k, xs, AsCoded), st, temp, next))
  {
    hide Steps, Step, At, Stored, StoreCode, Items, Before;
    m := n;
    if list[k].into.Some? {
      var home := list[k].into.value;
      assert Homes(list[k])[0] == home;
      var before, count := Before(list, |list|), Items(list, |list|);
      AtTwo(c.code, ip, AssignArray(temp, rhs, before, count), StoreCode(l, home, temp));
      StepElements(c, f, n, ip, st, temp, rhs, before, count);
      StepStore(l, c, f, n + 1, ip + 1, st, home, Given(list, k, xs, AsCoded), temp);
      m := n + 2;
    }
  }

  // ----- when it is what the language means ------------------------------------------------------

  /** No list has two splats. */
  predicate Accepted(target: Target)
    decreases target
  {
    target.Multiple? ==> Splats(target.list, |target.list|) <= 1 && AllAccepted(target.list, |target.list|)
  }

  predicate AllAccepted(list: seq<Target>, n: nat)
    requires n <= |list|
    decreases list, n
  {
    n > 0 ==> AllAccepted(list, n - 1) && Accepted(list[n - 1])
  }

  /** Item k stands behind a splat. */
  predicate IsLate(list: seq<Target>, k: nat) {
    k < |list| && !list[k].Splat? && Splats(list, k) > 0
  }

  /** At most one item stands behind a splat, or none that has a variable. */
  ghost predicate FewLate(list: seq<Target>) {
    || Splats(list, |list|) == 0
    || Items(list, |list|) - Before(list, |list|) <= 1
    || (forall k: nat {:trigger IsLate(list, k)} :: IsLate(list, k) ==> Homes(list[k]) == [])
  }

  ghost predicate Tidy(target: Target)
    decreases target
  {
    target.Multiple? ==> FewLate(target.list) && AllTidy(target.list, |target.list|)
  }

  ghost predicate AllTidy(list: seq<Target>, n: nat)
    requires n <= |list|
    decreases list, n
  {
    n > 0 ==> AllTidy(list, n - 1) && Tidy(list[n - 1])
  }

  /** Items behind a splat get the elements that are due to them in reverse. */
  lemma LateItemsReversed(list: seq<Target>, k: nat, m: nat, xs: seq<Value>)
    requires Splats(list, |list|) <= 1 && IsLate(list, k) && IsLate(list, m) && Items(list, k) < |xs|
    requires Items(list, k) + Items(list, m) == Before(list, |list|) + Min(Items(list, |list|), |xs|) - 1
    ensures Element(list, k, xs, AsCoded) == Element(list, m, xs, AsMeant)
  {
    hide Items, Splats, Before, IndexAt;
    ItemsGrow(list, k, |list|);
    ItemsGrow(list, m, |list|);
    IndexIs(list, k);
    IndexIs(list, m);
    IndexIs(list, |list|);
  }

  /** Where the elements of item k are: the code's and the language's. */
  lemma ElementPositions(list: seq<Target>, k: nat, xs: seq<Value>)
    requires k < |list| && !list[k].Splat? && Splats(list, |list|) <= 1
    ensures var size, count, before := Items(list, k), Items(list, |list|), Before(list, |list|);
            && size < count
            && (Splats(list, k) > 0 ==> before <= size)
            && Element(list, k, xs, AsCoded) == (if |xs| <= size then Nil
                                                 else if Splats(list, k) == 0 then xs[size]
                                                 else ElementOf(xs, |xs| - 1 - (size - before)))
            && Element(list, k, xs, AsMeant) == (if |xs| <= size then Nil
                                                 else if Splats(list, k) == 0 || |xs| < count then xs[size]
                                                 else ElementOf(xs, |xs| - (count - size)))
  {
    hide Items, Splats, Before, IndexAt;
    ItemsGrow(list, k, |list|);
    IndexIs(list, k);
    IndexIs(list, |list|);
  }

  lemma {:induction false} TidyIsRight(target: Target, x: Value)
    requires Accepted(target) && Tidy(target)
    ensures Values(target, x, AsCoded) == Values(target, x, AsMeant)
    decreases target
  {
    if target.Multiple? {
      TidyEntries(target.list, |target.list|, Elements(x));
    }
  }

  lemma {:induction false} TidyEntries(list: seq<Target>, n: nat, xs: seq<Value>)
    requires n <= |list| && Splats(list, |list|) <= 1 && FewLate(list) && AllAccepted(list, n) && AllTidy(list, n)
    ensures EntryValues(list, n, xs, AsCoded) == EntryValues(list, n, xs, AsMeant)
    decreases list, n
  {
    hide Items, Splats, Before, IndexAt, Element, LeftOver;
    if n > 0 {
      TidyEntries(list, n - 1, xs);
      TidyIsRight(list[n - 1], Given(list, n - 1, xs, AsCoded));
      if !list[n - 1].Splat? {
        ElementPositions(list, n - 1, xs);
        assert IsLate(list, n - 1) <==> Splats(list, n - 1) > 0;
        ItemsGrow(list, n - 1, |list|);
      }
    }
  }

  /** If the values of one entry differ, so do those of the list. */
  lemma {:induction false} DifferThere(list: seq<Target>, n: nat, k: nat, xs: seq<Value>, way: Way, ys: seq<Value>,
                                       other: Way)
    requires k < n <= |list|
    requires Values(list[k], Given(list, k, xs, way), way) != Values(list[k], Given(list, k, ys, other), other)
    ensures EntryValues(list, n, xs, way) != EntryValues(list, n, ys, other)
    decreases n
  {
    var a, va := EntryValues(list, n - 1, xs, way), Values(list[n - 1], Given(list, n - 1, xs, way), way);
    var b, vb := EntryValues(list, n - 1, ys, other), Values(list[n - 1], Given(list, n - 1, ys, other), other);
    if k < n - 1 {
      DifferThere(list, n - 1, k, xs, way, ys, other);
      assert (a + va)[..|a|] == a && (b + vb)[..|b|] == b;
    } else {
      assert (a + va)[|a|..] == va && (b + vb)[|b|..] == vb;
    }
  }

  /** With one more element than there are items, all of them alike, every item gets that. */
  lemma AlikeElements(list: seq<Target>, k: nat, x: Value, way: Way)
    requires k < |list| && !list[k].Splat? && Splats(list, |list|) <= 1
    ensures Element(list, k, seq(Items(list, |list|) + 1, _ => x), way) == x
  {
    var xs := seq(Items(list, |list|) + 1, _ => x);
    ElementPositions(list, k, xs);
    ItemsGrow(list, k, |list|);
  }

  lemma {:induction false} SomeEntry(list: seq<Target>, n: nat) returns (k: nat)
    requires n <= |list| && EntryHomes(list, n) != []
    ensures k < n && Homes(list[k]) != []
    decreases n
  {
    if Homes(list[n - 1]) != [] {
      k := n - 1;
    } else {
      k := SomeEntry(list, n - 1);
    }
  }

  /** What the variables of a target get depends on what it is assigned. */
  lemma {:induction false} TellsApart(target: Target) returns (x: Value, y: Value)
    requires Accepted(target) && Homes(target) != []
    ensures Values(target, x, AsCoded) != Values(target, y, AsMeant)
    decreases target
  {
    match target
    case Multiple(list) =>
      var k := SomeEntry(list, |list|);
      var count := Items(list, |list|);
      var xs, ys: seq<Value>;
      if list[k].Splat? {
        xs, ys := seq(count + 1, _ => Nil), [];
        IndexIs(list, |list|);
        assert |LeftOver(list, xs)| == 1 && |LeftOver(list, ys)| == 0;
      } else {
        EntryAccepted(list, |list|, k);
        var u, v := TellsApart(list[k]);
        xs, ys := seq(count + 1, _ => u), seq(count + 1, _ => v);
        AlikeElements(list, k, u, AsCoded);
        AlikeElements(list, k, v, AsMeant);
      }
      DifferThere(list, |list|, k, xs, AsCoded, ys, AsMeant);
      x, y := Array(xs), Array(ys);
    case _ =>
      x, y := Plain(0), Plain(1);
  }

  lemma {:induction false} EntryAccepted(list: seq<Target>, n: nat, k: nat)
    requires k < n <= |list| && AllAccepted(list, n)
    ensures Accepted(list[k])
    decreases n
  {
    if k < n - 1 {
      EntryAccepted(list, n - 1, k);
    }
  }

  lemma {:induction false} SomeUntidy(list: seq<Target>, n: nat) returns (k: nat)
    requires n <= |list| && !AllTidy(list, n)
    ensures k < n && !Tidy(list[k])
    decreases n
  {
    if !Tidy(list[n - 1]) {
      k := n - 1;
    } else {
      k := SomeUntidy(list, n - 1);
    }
  }

  /** Elements for which a late item does not get its own. */
  lemma LateGetsAnother(list: seq<Target>, k: nat, x: Value, y: Value) returns (xs: seq<Value>)
    requires Splats(list, |list|) <= 1 && IsLate(list, k) && Items(list, |list|) - Before(list, |list|) > 1
    ensures Element(list, k, xs, AsCoded) == x && Element(list, k, xs, AsMeant) == y
  {
    var size, count, before := Items(list, k), Items(list, |list|), Before(list, |list|);
    ElementPositions(list, k, []);
    var n := if 2 * (size - before) != count - before - 1 then count else count - 1;
    var p := n - 1 - (size - before);
    xs := seq(n, i => if i == p then x else y);
    ElementPositions(list, k, xs);
  }

  lemma {:induction false} UntidyIsWrong(target: Target) returns (x: Value)
    requires Accepted(target) && !Tidy(target)
    ensures Values(target, x, AsCoded) != Values(target, x, AsMeant)
    decreases target
  {
    var list := target.list;
    var k: nat;
    var xs: seq<Value>;
    if !AllTidy(list, |list|) {
      k := SomeUntidy(list, |list|);
      EntryAccepted(list, |list|, k);
      var y := UntidyIsWrong(list[k]);
      xs := seq(Items(list, |list|) + 1, _ => y);
      AlikeElements(list, k, y, AsCoded);
      AlikeElements(list, k, y, AsMeant);
    } else {
      k :| IsLate(list, k) && Homes(list[k]) != [];
      EntryAccepted(list, |list|, k);
      var u, v := TellsApart(list[k]);
      xs := LateGetsAnother(list, k, u, v);
    }
    DifferThere(list, |list|, k, xs, AsCoded, xs, AsMeant);
    x := Array(xs);
  }

  /** Multiple assignment assigns what the language means, whatever the value, if and only if no list
      has two items behind its splat of which one has a variable. */
  lemma RightIfTidy(target: Target)
    requires Accepted(target)
    ensures (forall x :: Values(target, x, AsCoded) == Values(target, x, AsMeant)) <==> Tidy(target)
  {
    if Tidy(target) {
      forall x ensures Values(target, x, AsCoded) == Values(target, x, AsMeant) {
        TidyIsRight(target, x);
      }
    } else {
      var x := UntidyIsWrong(target);
    }
  }

  // ----- what lists of variables get -------------------------------------------------------------

  predicate AllVariables(list: seq<Target>, p: nat) {
    forall k {:trigger list[k]} ::
      0 <= k < |list| ==> if k == p then list[k].Splat? && list[k].into.Some? else list[k].Variable?
  }

  lemma {:induction false} VariablesOf(list: seq<Target>, p: nat, n: nat, xs: seq<Value>, way: Way)
    requires AllVariables(list, p) && n <= |list|
    ensures Items(list, n) == (if n <= p then n else n - 1) && Splats(list, n) == (if n <= p then 0 else 1)
    ensures n > p ==> Before(list, n) == p
    ensures |EntryValues(list, n, xs, way)| == n
    ensures forall k {:trigger EntryValues(list, n, xs, way)[k]} ::
      0 <= k < n ==> EntryValues(list, n, xs, way)[k] == Given(list, k, xs, way)
    decreases n
  {
    hide Given;
    if n > 0 {
      VariablesOf(list, p, n - 1, xs, way);
      assert Values(list[n - 1], Given(list, n - 1, xs, way), way) == [Given(list, n - 1, xs, way)];
    }
  }

  /** Without a splat: an array's elements in order, and nil where there are none; a value that is no
      array goes to the first variable. */
  lemma VariablesGet(list: seq<Target>, x: Value, way: Way, k: nat)
    requires AllVariables(list, |list|) && k < |list|
    ensures |Values(Multiple(list), x, way)| == |list|
    ensures Values(Multiple(list), x, way)[k] ==
            if x.Array? then (if k < |x.list| then x.list[k] else Nil) else if k == 0 then x else Nil
  {
    hide IndexAt;
    VariablesOf(list, |list|, k, Elements(x), way);
    VariablesOf(list, |list|, |list|, Elements(x), way);
    IndexIs(list, k);
  }

  /** With a splat as entry p, in the language: variables before it get elements from the front, the
      splat what the others leave over, and those behind it the last elements. */
  lemma SplatAndVariablesGet(list: seq<Target>, p: nat, xs: seq<Value>, k: nat)
    requires AllVariables(list, p) && p < |list| && k < |list|
    ensures var values := Values(Multiple(list), Array(xs), AsMeant);
            var behind := |list| - 1 - p;
            && |values| == |list|
            && (k < p ==> values[k] == if k < |xs| then xs[k] else Nil)
            && (k == p ==> values[k] == Array(if |xs| >= |list| then xs[p..|xs| - behind] else []))
            && (k > p && |xs| >= |list| - 1 ==> values[k] == xs[|xs| - (|list| - k)])
            && (k > p && |xs| < |list| - 1 ==> values[k] == if k - 1 < |xs| then xs[k - 1] else Nil)
  {
    hide Items, Splats, Before, AllVariables, EntryValues;
    VariablesOf(list, p, k, xs, AsMeant);
    VariablesOf(list, p, |list|, xs, AsMeant);
    EntryIs(list, p, k);
    assert Values(Multiple(list), Array(xs), AsMeant) == EntryValues(list, |list|, xs, AsMeant);
  }

  lemma EntryIs(list: seq<Target>, p: nat, k: nat)
    requires AllVariables(list, p) && k < |list|
    ensures list[k].Splat? <==> k == p
  {
  }

  /** Of two items behind a splat each gets the other's element. */
  lemma TwoBehindASplat(a: Home, b: Home, c: Home, d: Home)
    ensures var target := Multiple([Variable(a), Splat(Some(b)), Variable(c), Variable(d)]);
            var x := Array([Plain(1), Plain(2), Plain(3), Plain(4)]);
            && Values(target, x, AsCoded) == [Plain(1), Array([Plain(2)]), Plain(4), Plain(3)]
            && Values(target, x, AsMeant) == [Plain(1), Array([Plain(2)]), Plain(3), Plain(4)]
  {
    var list := [Variable(a), Splat(Some(b)), Variable(c), Variable(d)];
    var xs := [Plain(1), Plain(2), Plain(3), Plain(4)];
    Counted(list);
    assert LeftOver(list, xs) == [Plain(2)];
    FourValues(list, xs, AsCoded);
    FourValues(list, xs, AsMeant);
  }

  lemma FourValues(list: seq<Target>, xs: seq<Value>, way: Way)
    requires |list| == 4 && list[0].Variable? && list[1].Splat? && list[2].Variable? && list[3].Variable?
    requires list[1].into.Some?
    ensures Values(Multiple(list), Array(xs), way) ==
            [Given(list, 0, xs, way), Given(list, 1, xs, way), Given(list, 2, xs, way), Given(list, 3, xs, way)]
  {
    hide Given;
    assert EntryValues(list, 1, xs, way) == [Given(list, 0, xs, way)];
    assert EntryValues(list, 2, xs, way) == [Given(list, 0, xs, way), Given(list, 1, xs, way)];
    assert EntryValues(list, 3, xs, way) == [Given(list, 0, xs, way), Given(list, 1, xs, way), Given(list, 2, xs, way)];
    assert Values(Multiple(list), Array(xs), way) == EntryValues(list, 4, xs, way);
    assert EntryValues(list, 4, xs, way) == EntryValues(list, 3, xs, way) + [Given(list, 3, xs, way)];
  }

  lemma Counted(list: seq<Target>)
    requires |list| == 4 && list[0].Variable? && list[1].Splat? && list[2].Variable? && list[3].Variable?
    ensures Items(list, 0) == 0 && Items(list, 1) == Items(list, 2) == 1 && Items(list, 3) == 2 && Items(list, 4) == 3
    ensures Splats(list, 0) == Splats(list, 1) == 0 && Splats(list, 2) == Splats(list, 3) == Splats(list, 4) == 1
    ensures Before(list, 4) == Before(list, 3) == Before(list, 2) == 1
    ensures IndexAt(list, 0) == 0 && IndexAt(list, 2) == -1 && IndexAt(list, 3) == -2
  {
  }
}
