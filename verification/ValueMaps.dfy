/** The open-addressing table with identity-compared keys. */
module ValueMaps {

  type Value = nat
  type Hash = Value -> nat

  datatype Slot = Undef | Full(value: Value)

  // ----- tables as values --------------------------------------------------------------------

  /** Sizes are powers of two, so that masking with size - 1 is taking the remainder. */
  predicate PowerOfTwo(n: nat) {
    n == 1 || (n > 1 && n % 2 == 0 && PowerOfTwo(n / 2))
  }

  /** x & mask */
  function Masked(x: nat, mask: nat): (r: nat)
    ensures r <= mask
  {
    x % (mask + 1)
  }

  /** (current + 1) & mask */
  function Next(current: nat, mask: nat): (r: nat)
    requires current <= mask
    ensures r <= mask && r == Masked(current + 1, mask)
  {
    if current == mask then 0 else current + 1
  }

  /** The slot n steps along the probe sequence of a key. */
  function Probe(hash: Hash, key: Value, mask: nat, n: nat): (r: nat)
    requires n <= mask
    ensures r <= mask
  {
    var x := Masked(hash(key), mask) + n;
    if x <= mask then x else x - mask - 1
  }

  /** Keys are in the even cells of a table and their values in the odd ones. */
  predicate Sized(table: seq<Slot>, mask: nat) {
    |table| == 2 * (mask + 1)
  }

  function KeyAt(table: seq<Slot>, mask: nat, i: nat): Slot
    requires Sized(table, mask) && i <= mask
  {
    table[2 * i]
  }

  function ValueAt(table: seq<Slot>, mask: nat, i: nat): Slot
    requires Sized(table, mask) && i <= mask
  {
    table[2 * i + 1]
  }

  /** Every slot before step n of a key's probe sequence is taken, by other keys. */
  predicate Beyond(hash: Hash, table: seq<Slot>, mask: nat, key: Value, n: nat)
    requires Sized(table, mask) && n <= mask + 1
  {
    forall e: nat {:trigger Probe(hash, key, mask, e)} :: e < n ==>
      KeyAt(table, mask, Probe(hash, key, mask, e)).Full? && KeyAt(table, mask, Probe(hash, key, mask, e)) != Full(key)
  }

  /** The probe sequence of the key in slot i gets to slot i. */
  ghost predicate Findable(hash: Hash, table: seq<Slot>, mask: nat, i: nat)
    requires Sized(table, mask) && i <= mask && KeyAt(table, mask, i).Full?
  {
    var key := KeyAt(table, mask, i).value;
    exists n :: 0 <= n <= mask && Probe(hash, key, mask, n) == i && Beyond(hash, table, mask, key, n)
  }

  ghost predicate Chains(hash: Hash, table: seq<Slot>, mask: nat) {
    Sized(table, mask) && forall i {:trigger KeyAt(table, mask, i)} ::
      0 <= i <= mask && KeyAt(table, mask, i).Full? ==> Findable(hash, table, mask, i)
  }

  /** The table holds the bindings of m and no others, each once. */
  ghost predicate Holds(table: seq<Slot>, mask: nat, m: map<Value, Value>) {
    && Sized(table, mask)
    && (forall i {:trigger KeyAt(table, mask, i)} :: 0 <= i <= mask && KeyAt(table, mask, i).Full? ==>
          KeyAt(table, mask, i).value in m && ValueAt(table, mask, i) == Full(m[KeyAt(table, mask, i).value]))
    && (forall key <- m :: HasKey(table, mask, key))
    && (forall i, j {:trigger KeyAt(table, mask, i), KeyAt(table, mask, j)} ::
        0 <= i < j <= mask && KeyAt(table, mask, i).Full? ==>
          KeyAt(table, mask, i) != KeyAt(table, mask, j))
  }

  ghost predicate HasKey(table: seq<Slot>, mask: nat, key: Value)
    requires Sized(table, mask)
  {
    exists i :: 0 <= i <= mask && KeyAt(table, mask, i) == Full(key)
  }

  /** As many bindings as slots, if no slot is free. */
  lemma {:induction false} KeysOfSlots(table: seq<Slot>, mask: nat, m: map<Value, Value>, n: nat)
    returns (keys: set<Value>)
    requires Holds(table, mask, m) && n <= mask + 1
    requires forall i {:trigger KeyAt(table, mask, i)} :: 0 <= i < n ==> KeyAt(table, mask, i).Full?
    ensures keys <= m.Keys && |keys| == n
    ensures forall key <- keys :: exists i :: 0 <= i < n && KeyAt(table, mask, i) == Full(key)
    decreases n
  {
    if n == 0 {
      keys := {};
    } else {
      var rest := KeysOfSlots(table, mask, m, n - 1);
      var last := KeyAt(table, mask, n - 1).value;
      assert last !in rest;
      keys := rest + {last};
    }
  }

  ghost predicate FreeAt(table: seq<Slot>, mask: nat, i: nat)
    requires Sized(table, mask)
  {
    i <= mask && KeyAt(table, mask, i).Undef?
  }

  /** A table with fewer entries than slots has a free one. */
  lemma SomeFree(table: seq<Slot>, mask: nat, m: map<Value, Value>) returns (i: nat)
    requires Holds(table, mask, m) && |m| <= mask
    ensures FreeAt(table, mask, i)
  {
    if forall i :: 0 <= i <= mask ==> KeyAt(table, mask, i).Full? {
      var keys := KeysOfSlots(table, mask, m, mask + 1);
      SubsetSize(keys, m.Keys);
      assert false;
    }
    i :| 0 <= i <= mask && KeyAt(table, mask, i).Undef?;
  }

  lemma {:induction false} SubsetSize(a: set<Value>, b: set<Value>)
    requires a <= b
    ensures |a| <= |b|
    decreases a
  {
    if x :| x in a {
      SubsetSize(a - {x}, b - {x});
    }
  }

  /** Every slot is on every probe sequence. */
  lemma ProbeReaches(hash: Hash, key: Value, mask: nat, i: nat) returns (n: nat)
    requires i <= mask
    ensures n <= mask && Probe(hash, key, mask, n) == i
  {
    var start := Masked(hash(key), mask);
    n := if i >= start then i - start else i + mask + 1 - start;
  }

  lemma NotAt(hash: Hash, table: seq<Slot>, mask: nat, key: Value, d: nat, n: nat)
    requires Sized(table, mask) && d <= mask && n <= mask
    requires Beyond(hash, table, mask, key, d) && Beyond(hash, table, mask, key, n)
      && KeyAt(table, mask, Probe(hash, key, mask, n)).Undef?
    ensures KeyAt(table, mask, Probe(hash, key, mask, d)) != Full(key)
  {
  }

  /** Where a probe stops at a free slot, the key is not in the table. */
  lemma NotThere(hash: Hash, table: seq<Slot>, mask: nat, m: map<Value, Value>, key: Value, n: nat)
    requires Chains(hash, table, mask) && Holds(table, mask, m) && n <= mask && Beyond(hash, table, mask, key, n)
    requires KeyAt(table, mask, Probe(hash, key, mask, n)).Undef?
    ensures key !in m
  {
    forall i | 0 <= i <= mask
      ensures KeyAt(table, mask, i) != Full(key)
    {
      forall d: nat | d <= mask && Probe(hash, key, mask, d) == i && Beyond(hash, table, mask, key, d)
        ensures KeyAt(table, mask, i) != Full(key)
      {
        NotAt(hash, table, mask, key, d, n);
      }
    }
  }

  function Stored(table: seq<Slot>, mask: nat, i: nat, key: Value, value: Value): (r: seq<Slot>)
    requires Sized(table, mask) && i <= mask
    ensures Sized(r, mask)
    ensures forall j {:trigger KeyAt(r, mask, j)} {:trigger KeyAt(table, mask, j)} ::
      0 <= j <= mask ==> KeyAt(r, mask, j) == if j == i then Full(key) else KeyAt(table, mask, j)
    ensures forall j {:trigger ValueAt(r, mask, j)} ::
      0 <= j <= mask ==> ValueAt(r, mask, j) == if j == i then Full(value) else ValueAt(table, mask, j)
  {
    table[2 * i := Full(key)][2 * i + 1 := Full(value)]
  }

  /** Storing into the slot a probe ends at. */
  lemma StoredHolds(hash: Hash, table: seq<Slot>, mask: nat, m: map<Value, Value>, key: Value, value: Value, n: nat)
    requires Chains(hash, table, mask) && Holds(table, mask, m) && n <= mask && Beyond(hash, table, mask, key, n)
    requires KeyAt(table, mask, Probe(hash, key, mask, n)) in {Undef, Full(key)}
    ensures var r := Stored(table, mask, Probe(hash, key, mask, n), key, value);
            Chains(hash, r, mask) && Holds(r, mask, m[key := value])
    ensures KeyAt(table, mask, Probe(hash, key, mask, n)).Full? <==> key in m
  {
    hide Probe;
    var i := Probe(hash, key, mask, n);
    if KeyAt(table, mask, i).Undef? {
      NotThere(hash, table, mask, m, key, n);
    }
    var r := Stored(table, mask, i, key, value);
    StoredChains(hash, table, mask, key, value, n);
    assert KeyAt(r, mask, i) == Full(key);
    forall k <- m[key := value]
      ensures HasKey(r, mask, k)
    {
      if k != key {
        assert HasKey(table, mask, k);
        var j :| 0 <= j <= mask && KeyAt(table, mask, j) == Full(k);
        assert KeyAt(r, mask, j) == Full(k);
      }
    }
    forall a, b {:trigger KeyAt(r, mask, a), KeyAt(r, mask, b)} | 0 <= a < b <= mask && KeyAt(r, mask, a).Full?
      ensures KeyAt(r, mask, a) != KeyAt(r, mask, b)
    {
      assert KeyAt(table, mask, a) == KeyAt(table, mask, a);
      assert KeyAt(table, mask, b) == KeyAt(table, mask, b);
      assert KeyAt(table, mask, i) == KeyAt(table, mask, i);
    }
  }

  lemma StoredChains(hash: Hash, table: seq<Slot>, mask: nat, key: Value, value: Value, n: nat)
    requires Chains(hash, table, mask) && n <= mask && Beyond(hash, table, mask, key, n)
    requires KeyAt(table, mask, Probe(hash, key, mask, n)) in {Undef, Full(key)}
    requires forall i, j {:trigger KeyAt(table, mask, i), KeyAt(table, mask, j)} ::
      0 <= i < j <= mask && KeyAt(table, mask, i).Full? ==>
               KeyAt(table, mask, i) != KeyAt(table, mask, j)
    ensures Chains(hash, Stored(table, mask, Probe(hash, key, mask, n), key, value), mask)
  {
    hide Probe;
    var at := Probe(hash, key, mask, n);
    var r := Stored(table, mask, at, key, value);
    forall i {:trigger KeyAt(r, mask, i)} | 0 <= i <= mask && KeyAt(r, mask, i).Full?
      ensures Findable(hash, r, mask, i)
    {
      var k := KeyAt(r, mask, i).value;
      var d: nat;
      if i == at {
        d := n;
      } else {
        assert Findable(hash, table, mask, i);
        d :| 0 <= d <= mask && Probe(hash, k, mask, d) == i && Beyond(hash, table, mask, k, d);
        assert KeyAt(table, mask, i) == Full(k);
      }
      assert Beyond(hash, r, mask, k, d) by {
        forall e: nat {:trigger Probe(hash, k, mask, e)} | e < d
          ensures KeyAt(r, mask, Probe(hash, k, mask, e)).Full? && KeyAt(r, mask, Probe(hash, k, mask, e)) != Full(k)
        {
          assert KeyAt(table, mask, Probe(hash, k, mask, e)).Full?;
        }
      }
    }
  }

  function Empty(mask: nat): (r: seq<Slot>)
    ensures Sized(r, mask) && forall i {:trigger r[i]} :: 0 <= i < |r| ==> r[i] == Undef
  {
    seq(2 * (mask + 1), i => Undef)
  }

  lemma EmptyHolds(hash: Hash, mask: nat)
    ensures Chains(hash, Empty(mask), mask) && Holds(Empty(mask), mask, map[])
  {
  }

  /** The bindings of the first n slots. */
  ghost predicate AmongFirst(table: seq<Slot>, mask: nat, n: nat, key: Value)
    requires Sized(table, mask) && n <= mask + 1
  {
    exists i :: 0 <= i < n && KeyAt(table, mask, i) == Full(key)
  }

  ghost function Prefix(table: seq<Slot>, mask: nat, m: map<Value, Value>, n: nat): map<Value, Value>
    requires Holds(table, mask, m) && n <= mask + 1
  {
    map key <- m | AmongFirst(table, mask, n, key) :: m[key]
  }

  lemma AmongNext(table: seq<Slot>, mask: nat, n: nat, key: Value)
    requires Sized(table, mask) && n <= mask
    ensures AmongFirst(table, mask, n + 1, key) <==>
            AmongFirst(table, mask, n, key) || KeyAt(table, mask, n) == Full(key)
  {
    if AmongFirst(table, mask, n, key) {
      var i :| 0 <= i < n && KeyAt(table, mask, i) == Full(key);
      assert i < n + 1;
    }
  }

  lemma KeyIsNew(table: seq<Slot>, mask: nat, m: map<Value, Value>, n: nat, key: Value)
    requires Holds(table, mask, m) && n <= mask && KeyAt(table, mask, n) == Full(key)
    ensures key in m && !AmongFirst(table, mask, n, key)
  {
  }

  lemma PrefixNext(table: seq<Slot>, mask: nat, m: map<Value, Value>, n: nat)
    requires Holds(table, mask, m) && n <= mask
    ensures match KeyAt(table, mask, n)
            case Undef => Prefix(table, mask, m, n + 1) == Prefix(table, mask, m, n)
            case Full(key) =>
              key !in Prefix(table, mask, m, n) && key in m
                && Prefix(table, mask, m, n + 1) == Prefix(table, mask, m, n)[key := m[key]]
                              && |Prefix(table, mask, m, n + 1)| == |Prefix(table, mask, m, n)| + 1
  {
    assert Sized(table, mask);
    hide *;
    match KeyAt(table, mask, n)
    case Undef => NoKeyNext(table, mask, m, n);
    case Full(key) => KeyNext(table, mask, m, n, key);
  }

  lemma NoKeyNext(table: seq<Slot>, mask: nat, m: map<Value, Value>, n: nat)
    requires Holds(table, mask, m) && n <= mask && KeyAt(table, mask, n) == Undef
    ensures Prefix(table, mask, m, n + 1) == Prefix(table, mask, m, n)
  {
    hide AmongFirst, Holds, Prefix;
    forall key ensures key in Prefix(table, mask, m, n + 1) <==> key in Prefix(table, mask, m, n) {
      PrefixHas(table, mask, m, n, key);
      PrefixHas(table, mask, m, n + 1, key);
      AmongNext(table, mask, n, key);
    }
    PrefixPart(table, mask, m, n);
    PrefixPart(table, mask, m, n + 1);
    SameParts(m, Prefix(table, mask, m, n), Prefix(table, mask, m, n + 1));
  }

  lemma KeyNext(table: seq<Slot>, mask: nat, m: map<Value, Value>, n: nat, key: Value)
    requires Holds(table, mask, m) && n <= mask && KeyAt(table, mask, n) == Full(key)
    ensures key !in Prefix(table, mask, m, n) && key in m
    ensures Prefix(table, mask, m, n + 1) == Prefix(table, mask, m, n)[key := m[key]]
    ensures |Prefix(table, mask, m, n + 1)| == |Prefix(table, mask, m, n)| + 1
  {
    hide AmongFirst, Holds, Prefix;
    KeyIsNew(table, mask, m, n, key);
    PrefixHas(table, mask, m, n, key);
    forall k ensures k in Prefix(table, mask, m, n + 1) <==> k in Prefix(table, mask, m, n) || k == key {
      PrefixHas(table, mask, m, n, k);
      PrefixHas(table, mask, m, n + 1, k);
      AmongNext(table, mask, n, k);
    }
    PrefixPart(table, mask, m, n);
    PrefixPart(table, mask, m, n + 1);
    NextPart(m, Prefix(table, mask, m, n), Prefix(table, mask, m, n + 1), key);
  }

  lemma PrefixHas(table: seq<Slot>, mask: nat, m: map<Value, Value>, n: nat, key: Value)
    requires Holds(table, mask, m) && n <= mask + 1
    ensures Sized(table, mask) && (key in Prefix(table, mask, m, n) <==> key in m && AmongFirst(table, mask, n, key))
  {
    hide AmongFirst;
  }

  predicate IsPart(m: map<Value, Value>, a: map<Value, Value>) {
    forall key <- a :: key in m && a[key] == m[key]
  }

  lemma PrefixPart(table: seq<Slot>, mask: nat, m: map<Value, Value>, n: nat)
    requires Holds(table, mask, m) && n <= mask + 1
    ensures IsPart(m, Prefix(table, mask, m, n))
  {
    hide AmongFirst;
  }

  lemma SameParts(m: map<Value, Value>, a: map<Value, Value>, b: map<Value, Value>)
    requires IsPart(m, a) && IsPart(m, b) && forall key :: key in b <==> key in a
    ensures b == a
  {
    assert b.Keys == a.Keys;
  }

  lemma NextPart(m: map<Value, Value>, a: map<Value, Value>, b: map<Value, Value>, key: Value)
    requires IsPart(m, a) && IsPart(m, b) && key in m && key !in a && forall k :: k in b <==> k in a || k == key
    ensures b == a[key := m[key]] && |b| == |a| + 1
  {
    assert b.Keys == a.Keys + {key};
    assert |b.Keys| == |a.Keys| + 1;
  }

  lemma PrefixAll(table: seq<Slot>, mask: nat, m: map<Value, Value>)
    requires Holds(table, mask, m)
    ensures Prefix(table, mask, m, mask + 1) == m && Prefix(table, mask, m, 0) == map[]
  {
    forall key <- m
      ensures key in Prefix(table, mask, m, mask + 1)
    {
      assert HasKey(table, mask, key);
    }
  }

  lemma SizeIs(hash: Hash, table: seq<Slot>, mask: nat)
    requires Chains(hash, table, mask)
    ensures Sized(table, mask)
  {
  }

  lemma FoundThere(table: seq<Slot>, mask: nat, m: map<Value, Value>, i: nat)
    requires Holds(table, mask, m) && i <= mask && KeyAt(table, mask, i).Full?
    ensures KeyAt(table, mask, i).value in m && table[2 * i + 1] == Full(m[KeyAt(table, mask, i).value])
  {
    assert ValueAt(table, mask, i) == table[2 * i + 1];
  }

  lemma KeyIs(table: seq<Slot>, mask: nat, i: nat, key: Value)
    requires Sized(table, mask) && i <= mask && KeyAt(table, mask, i) == Full(key)
    ensures table[2 * i] == Full(key)
  {
  }

  lemma StoredIs(table: seq<Slot>, mask: nat, i: nat, key: Value, value: Value, r: seq<Slot>)
    requires Sized(table, mask) && i <= mask && r == table[2 * i := Full(key)][2 * i + 1 := Full(value)]
    ensures r == Stored(table, mask, i, key, value)
  {
  }

  /** A taken slot is not the last of the probe sequence when there is a free one. */
  lemma NotLast(hash: Hash, table: seq<Slot>, mask: nat, key: Value, n: nat, far: nat)
    requires Sized(table, mask) && far <= mask && n <= mask && KeyAt(table, mask, Probe(hash, key, mask, far)).Undef?
    requires Beyond(hash, table, mask, key, n)
    requires KeyAt(table, mask, Probe(hash, key, mask, n)).Full?
      && KeyAt(table, mask, Probe(hash, key, mask, n)) != Full(key)
    ensures n < mask && Probe(hash, key, mask, n + 1) == Next(Probe(hash, key, mask, n), mask)
      && Beyond(hash, table, mask, key, n + 1)
  {
  }

  // ----- the table in memory -----------------------------------------------------------------

  class ValueMapData {
    const hash: Hash
    var table: array<Slot>
    var mask: nat
    var entries: nat
    ghost var contents: map<Value, Value>

    ghost predicate Valid()
      reads this, table
    {
      && Chains(hash, table[..], mask) && Holds(table[..], mask, contents)
      && entries == |contents| && PowerOfTwo(mask + 1)
    }

    constructor (hash: Hash, initial: nat)
      requires PowerOfTwo(initial)
      ensures Valid() && fresh(table) && contents == map[] && mask == initial - 1 && this.hash == hash
    {
      this.hash := hash;
      entries := 0;
      mask := initial - 1;
      contents := map[];
      table := new Slot[2 * initial](i => Undef);
      new;
      EmptyHolds(hash, mask);
      assert table[..] == Empty(mask);
    }

    /** The slot of a key, or the free slot where it belongs.  There is a free slot, so the search
        ends. */
    method Search(key: Value) returns (current: nat, found: bool, ghost n: nat)
      requires Valid() && entries <= mask
      ensures n <= mask && current == Probe(hash, key, mask, n) && Beyond(hash, table[..], mask, key, n)
      ensures KeyAt(table[..], mask, current) == if found then Full(key) else Undef
      ensures found <==> key in contents
    {
      hide Chains, Holds, PowerOfTwo;
      SizeIs(hash, table[..], mask);
      ghost var free := SomeFree(table[..], mask, contents);
      ghost var far := ProbeReaches(hash, key, mask, free);
      current := Masked(hash(key), mask);
      n := 0;
      while true
        invariant n <= mask && current == Probe(hash, key, mask, n) && Beyond(hash, table[..], mask, key, n)
        decreases mask - n
      {
        var slot := table[2 * current];
        assert slot == KeyAt(table[..], mask, current);
        if slot == Undef {
          NotThere(hash, table[..], mask, contents, key, n);
          return current, false, n;
        }
        if slot == Full(key) {
          FoundThere(table[..], mask, contents, current);
          return current, true, n;
        }
        NotLast(hash, table[..], mask, key, n, far);
        current := Next(current, mask);
        n := n + 1;
      }
    }

    /** store: tells whether the key was there.  The table may be full afterwards. */
    method Store(key: Value, value: Value) returns (existed: bool)
      requires Valid() && entries <= mask
      modifies this`entries, this`contents, table
      ensures Valid() && contents == old(contents)[key := value]
      ensures existed <==> key in old(contents)
    {
      hide Chains, Holds, PowerOfTwo, Beyond, Probe, KeyAt;
      SizeIs(hash, table[..], mask);
      var current, found; ghost var n;
      current, found, n := Search(key);
      StoredHolds(hash, table[..], mask, contents, key, value, n);
      ghost var was := table[..];
      if !found {
        table[2 * current] := Full(key);
        entries := entries + 1;
        assert contents[key := value].Keys == contents.Keys + {key};
      } else {
        KeyIs(was, mask, current, key);
        assert contents[key := value].Keys == contents.Keys;
      }
      table[2 * current + 1] := Full(value);
      StoredIs(was, mask, current, key, value, table[..]);
      contents := contents[key := value];
      existed := found;
    }
  }

  lemma PrefixSize(table: seq<Slot>, mask: nat, m: map<Value, Value>, n: nat)
    requires Holds(table, mask, m) && n <= mask + 1
    ensures |Prefix(table, mask, m, n)| <= n
    decreases n
  {
    hide Holds, Prefix, KeyAt;
    if n > 0 {
      PrefixSize(table, mask, m, n - 1);
      PrefixNext(table, mask, m, n - 1);
    } else {
      PrefixAll(table, mask, m);
    }
  }

  lemma Doubled(size: nat)
    requires PowerOfTwo(size)
    ensures PowerOfTwo(size * 2)
  {
    assert size * 2 / 2 == size;
  }

  /** Between two calls a table has a free slot. */
  class ValueMap {
    var data: ValueMapData

    ghost predicate Valid()
      reads this, data, data.table
    {
      data.Valid() && data.entries <= data.mask
    }

    ghost function Contents(): map<Value, Value>
      reads this, data
    {
      data.contents
    }

    constructor (hash: Hash)
      ensures Valid() && Contents() == map[] && data.hash == hash && fresh(data) && fresh(data.table)
    {
      assert PowerOfTwo(8) by { assert PowerOfTwo(4) by { assert PowerOfTwo(2); } }
      data := new ValueMapData(hash, 8);
    }

    /** The value of a key, or what create makes for a missing one; that value is not stored. */
    method Get(key: Value, create: Value) returns (value: Value)
      requires Valid()
      ensures value == if key in Contents() then Contents()[key] else create
    {
      var current, found; ghost var n;
      current, found, n := data.Search(key);
      if found {
        FoundThere(data.table[..], data.mask, data.contents, current);
        return data.table[2 * current + 1].value;
      }
      return create;
    }

    method Has(key: Value) returns (b: bool)
      requires Valid()
      ensures b <==> key in Contents()
    {
      var current; ghost var n;
      current, b, n := data.Search(key);
    }

    method CopySlot(newData: ValueMapData, i: nat)
      requires data.Valid() && newData.Valid() && newData != data && newData.table != data.table
      requires i <= data.mask < newData.mask && newData.contents == Prefix(data.table[..], data.mask, data.contents, i)
      modifies newData`entries, newData`contents, newData.table
      ensures newData.Valid() && newData.contents == Prefix(data.table[..], data.mask, data.contents, i + 1)
    {
      hide Chains, Holds, Prefix, KeyAt, PowerOfTwo;
      PrefixNext(data.table[..], data.mask, data.contents, i);
      PrefixSize(data.table[..], data.mask, data.contents, i);
      SlotIs(data.table[..], data.mask, data.contents, i);
      var key := data.table[2 * i];
      if key != Undef {
        var value := data.table[2 * i + 1];
        var _ := newData.Store(key.value, value.value);
      }
    }

    method CopySlots(newData: ValueMapData)
      requires data.Valid() && newData.Valid() && newData != data && newData.table != data.table
      requires data.mask < newData.mask && newData.contents == map[]
      modifies newData`entries, newData`contents, newData.table
      ensures newData.Valid() && newData.contents == data.contents
    {
      hide Chains, Holds, Prefix, KeyAt, Sized, PowerOfTwo;
      PrefixAll(data.table[..], data.mask, data.contents);
      var i := 0;
      while i < data.mask + 1
        invariant 0 <= i <= data.mask + 1 && newData.Valid()
        invariant newData.contents == Prefix(data.table[..], data.mask, data.contents, i)
      {
        CopySlot(newData, i);
        i := i + 1;
      }
    }

    /** Twice the slots, the same bindings. */
    method Expand()
      requires data.Valid()
      modifies this`data
      ensures data.Valid() && fresh(data) && fresh(data.table) && data.hash == old(data.hash)
      ensures data.contents == old(data.contents) && data.entries == old(data.entries)
      ensures data.mask + 1 == 2 * (old(data.mask) + 1)
    {
      hide Chains, Holds, PowerOfTwo;
      var size := data.mask + 1;
      Doubled(size);
      var newData := new ValueMapData(data.hash, size * 2);
      CopySlots(newData);
      data := newData;
    }

    /** Binds the key.  What set tells is whether the key was there, except that it also says so when
        a new key made the table grow. */
    method Set(key: Value, value: Value) returns (existed: bool)
      requires Valid()
      modifies this`data, data, data.table
      ensures Valid() && Contents() == old(Contents())[key := value] && data.hash == old(data.hash)
      ensures data == old(data) || fresh(data)
      ensures data.table == old(data.table) || fresh(data.table)
      ensures var full := key !in old(Contents()) && |old(Contents())| == old(data.mask);
              && existed == (key in old(Contents()) || full)
              && data.mask + 1 == if full then 2 * (old(data.mask) + 1) else old(data.mask) + 1
    {
      hide Chains, Holds, PowerOfTwo;
      assert key !in data.contents ==> data.contents[key := value].Keys == data.contents.Keys + {key};
      assert key in data.contents ==> data.contents[key := value].Keys == data.contents.Keys;
      existed := data.Store(key, value);
      if !existed && data.entries > data.mask {
        Expand();
        existed := true;
      }
    }

    /** Calls go for one binding after another, until it says to stop. */
    method EachPair(go: (Value, Value) -> bool) returns (all: bool, visited: seq<(Value, Value)>)
      requires data.Valid()
      ensures Visits(visited, Contents()) && (all ==> Listed(visited, Contents()))
      ensures all <==> GoesOn(go, visited, |visited|)
      ensures !all ==> |visited| > 0 && GoesOn(go, visited, |visited| - 1)
      ensures forall v <- visited :: v.0 in Contents() && Contents()[v.0] == v.1
      ensures forall i, j :: 0 <= i < j < |visited| ==> visited[i].0 != visited[j].0
      ensures all ==> forall key <- Contents() :: exists v <- visited :: v.0 == key
    {
      hide Chains, Holds, Prefix, KeyAt, PowerOfTwo, Listed, Visits, GoesOn, Sized;
      visited := [];
      SizeIs(data.hash, data.table[..], data.mask);
      PrefixAll(data.table[..], data.mask, data.contents);
      NoneListed(go, data.contents);
      ghost var table, mask, contents := data.table[..], data.mask, data.contents;
      var i := 0;
      while i < data.mask + 1
        invariant 0 <= i <= data.mask + 1
        invariant Listed(visited, Prefix(table, mask, contents, i)) && Visits(visited, contents)
        invariant GoesOn(go, visited, |visited|)
      {
        SlotIs(table, mask, contents, i);
        var key := data.table[2 * i];
        if key != Undef {
          var value := data.table[2 * i + 1];
          VisitMore(table, mask, contents, i, visited, key.value, value.value, go);
          visited := visited + [(key.value, value.value)];
          if !go(key.value, value.value) {
            VisitedInWords(visited, contents, contents);
            return false, visited;
          }
        } else {
          PrefixNext(table, mask, contents, i);
        }
        i := i + 1;
      }
      VisitedInWords(visited, contents, contents);
      all := true;
    }
  }

  lemma VisitMore(table: seq<Slot>, mask: nat, m: map<Value, Value>, i: nat, s: seq<(Value, Value)>, key: Value,
                  value: Value, go: (Value, Value) -> bool)
    requires Holds(table, mask, m) && i <= mask && KeyAt(table, mask, i) == Full(key) && key in m && m[key] == value
    requires Listed(s, Prefix(table, mask, m, i)) && GoesOn(go, s, |s|)
    ensures var r := s + [(key, value)];
            Listed(r, Prefix(table, mask, m, i + 1)) && Visits(r, m) && GoesOn(go, r, |s|)
              && (GoesOn(go, r, |r|) <==> go(key, value))
  {
    hide Holds, KeyAt, Prefix, Listed, Visits;
    PrefixNext(table, mask, m, i);
    ListedMore(s, Prefix(table, mask, m, i), key, value);
    PrefixWithin(table, mask, m, i + 1);
    ListedVisits(s + [(key, value)], Prefix(table, mask, m, i + 1), m);
    var r := s + [(key, value)];
    assert r[|s|] == (key, value);
  }

  /** Bindings of m, each at most once. */
  lemma VisitedInWords(s: seq<(Value, Value)>, m: map<Value, Value>, all: map<Value, Value>)
    requires Visits(s, m)
    ensures forall v <- s :: v.0 in m && m[v.0] == v.1
    ensures forall i, j :: 0 <= i < j < |s| ==> s[i].0 != s[j].0
    ensures Listed(s, all) ==> forall key <- all :: exists v <- s :: v.0 == key
  {
  }

  ghost predicate Visits(s: seq<(Value, Value)>, m: map<Value, Value>) {
    (forall i, j :: 0 <= i < j < |s| ==> s[i].0 != s[j].0) && (forall v <- s :: v.0 in m && m[v.0] == v.1)
  }

  predicate GoesOn(go: (Value, Value) -> bool, s: seq<(Value, Value)>, n: nat)
    requires n <= |s|
  {
    forall i :: 0 <= i < n ==> go(s[i].0, s[i].1)
  }

  lemma NoneListed(go: (Value, Value) -> bool, m: map<Value, Value>)
    ensures Listed([], map[]) && Visits([], m) && GoesOn(go, [], 0)
  {
  }

  lemma ListedVisits(s: seq<(Value, Value)>, part: map<Value, Value>, m: map<Value, Value>)
    requires Listed(s, part) && forall key <- part :: key in m && m[key] == part[key]
    ensures Visits(s, m)
  {
  }

  lemma PrefixWithin(table: seq<Slot>, mask: nat, m: map<Value, Value>, n: nat)
    requires Holds(table, mask, m) && n <= mask + 1
    ensures forall key <- Prefix(table, mask, m, n) :: key in m && m[key] == Prefix(table, mask, m, n)[key]
  {
  }

  lemma SlotIs(table: seq<Slot>, mask: nat, m: map<Value, Value>, i: nat)
    requires Holds(table, mask, m) && i <= mask
    ensures 2 * i + 1 < |table| && table[2 * i] == KeyAt(table, mask, i)
    ensures table[2 * i].Full? ==> table[2 * i].value in m && table[2 * i + 1] == Full(m[table[2 * i].value])
  {
    assert ValueAt(table, mask, i) == table[2 * i + 1];
  }

  /** The bindings of m in some order. */
  ghost predicate Listed(s: seq<(Value, Value)>, m: map<Value, Value>) {
    && |s| == |m|
    && (forall i, j :: 0 <= i < j < |s| ==> s[i].0 != s[j].0)
    && (forall v <- s :: v.0 in m && m[v.0] == v.1)
    && (forall key <- m :: (key, m[key]) in s)
  }

  lemma ListedMore(s: seq<(Value, Value)>, m: map<Value, Value>, key: Value, value: Value)
    requires Listed(s, m) && key !in m
    ensures Listed(s + [(key, value)], m[key := value])
  {
    assert m[key := value].Keys == m.Keys + {key};
  }

  // ----- runs ----------------------------------------------------------------------------------

  datatype Op = SetOp(key: Value, value: Value) | GetOp(key: Value) | HasOp(key: Value)

  /** The bindings after some operations. */
  function After(ops: seq<Op>): map<Value, Value> {
    if ops == [] then map[]
    else
      var m := After(ops[..|ops| - 1]);
      match ops[|ops| - 1]
      case SetOp(key, value) => m[key := value]
      case _ => m
  }

  /** What a map would have answered to operation i. */
  predicate Answered(ops: seq<Op>, i: nat, answer: Slot)
    requires i < |ops|
  {
    var m := After(ops[..i]);
    match ops[i]
    case SetOp(_, _) => answer == Undef
    case GetOp(key) => answer == if key in m then Full(m[key]) else Undef
    case HasOp(key) => answer.Full? <==> key in m
  }

  /** A table behaves like a map whatever is done with it in whatever order. */
  method RunTable(hash: Hash, ops: seq<Op>) returns (answers: seq<Slot>)
    ensures |answers| == |ops| && forall i {:trigger answers[i]} :: 0 <= i < |ops| ==>
              match ops[i]
              case SetOp(_, _) => answers[i] == Undef
              case GetOp(key) =>
                var m := After(ops[..i]); answers[i] == if key in m then Full(m[key]) else Undef
              case HasOp(key) => answers[i].Full? <==> key in After(ops[..i])
  {
    hide ValueMapData.Valid, After;
    var t := new ValueMap(hash);
    answers := [];
    NothingYet(ops);
    while |answers| < |ops|
      invariant |answers| <= |ops| && t.Valid() && fresh(t) && fresh(t.data) && fresh(t.data.table)
      invariant t.Contents() == After(ops[..|answers|])
      invariant forall i {:trigger answers[i]} :: 0 <= i < |answers| ==> Answered(ops, i, answers[i])
    {
      var i := |answers|;
      OneMore(ops, i);
      var answer := Undef;
      match ops[i] {
        case SetOp(key, value) =>
          var _ := t.Set(key, value);
        case GetOp(key) =>
          var b := t.Has(key);
          var v := t.Get(key, 0);
          answer := if b then Full(v) else Undef;
        case HasOp(key) =>
          var b := t.Has(key);
          answer := if b then Full(1) else Undef;
      }
      answers := answers + [answer];
    }
  }

  lemma NothingYet(ops: seq<Op>)
    ensures After(ops[..0]) == map[]
  {
  }

  lemma OneMore(ops: seq<Op>, i: nat)
    requires i < |ops|
    ensures After(ops[..i + 1]) == match ops[i]
                                   case SetOp(key, value) => After(ops[..i])[key := value]
                                   case _ => After(ops[..i])
  {
    assert ops[..i + 1][..i] == ops[..i];
  }
}
