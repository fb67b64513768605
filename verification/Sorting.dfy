/** Enumerable#sort: a quicksort that partitions from one of two buffers into the other, and puts
    each pivot straight into the result. */
module Sorting {

  type Comparison<!T> = (T, T) -> int

  /** Nothing is incomparable, and <= 0 is transitive. */
  ghost predicate TotalPreorder<T(!new)>(cmp: Comparison<T>) {
    && (forall a, b {:trigger cmp(a, b)} :: cmp(a, b) <= 0 || cmp(b, a) <= 0)
    && (forall a, b, c {:trigger cmp(a, b), cmp(b, c)} :: cmp(a, b) <= 0 && cmp(b, c) <= 0 ==> cmp(a, c) <= 0)
  }

  ghost predicate Ascending<T>(cmp: Comparison<T>, s: seq<T>) {
    forall i, j :: 0 <= i < j < |s| ==> cmp(s[i], s[j]) <= 0
  }

  // ----- the result as a function of the input -------------------------------------------------

  /** What goes to the front of the other buffer, in order. */
  function Lows<T>(cmp: Comparison<T>, key: T, s: seq<T>): (r: seq<T>)
    ensures |r| <= |s|
  {
    if s == [] then [] else
      var last := s[|s| - 1];
      Lows(cmp, key, s[..|s| - 1]) + if cmp(last, key) > 0 then [] else [last]
  }

  /** What goes to the back, in reverse. */
  function Highs<T>(cmp: Comparison<T>, key: T, s: seq<T>): (r: seq<T>)
    ensures |r| + |Lows(cmp, key, s)| == |s|
  {
    if s == [] then [] else
      var last := s[|s| - 1];
      (if cmp(last, key) > 0 then [last] else []) + Highs(cmp, key, s[..|s| - 1])
  }

  function QuickSorted<T>(cmp: Comparison<T>, s: seq<T>): seq<T>
    decreases |s|
  {
    if |s| <= 1 then s
    else QuickSorted(cmp, Lows(cmp, s[0], s[1..])) + [s[0]] + QuickSorted(cmp, Highs(cmp, s[0], s[1..]))
  }

  lemma {:induction false} PartsKeepAll<T>(cmp: Comparison<T>, key: T, s: seq<T>)
    ensures multiset(Lows(cmp, key, s)) + multiset(Highs(cmp, key, s)) == multiset(s)
    ensures forall x <- Lows(cmp, key, s) :: cmp(x, key) <= 0
    ensures forall x <- Highs(cmp, key, s) :: cmp(x, key) > 0
  {
    if s != [] {
      var front, last := s[..|s| - 1], s[|s| - 1];
      PartsKeepAll(cmp, key, front);
      assert s == front + [last];
    }
  }

  /** Nothing is lost and nothing made up, whatever the comparison. */
  lemma {:induction false} SortPermutes<T>(cmp: Comparison<T>, s: seq<T>)
    ensures multiset(QuickSorted(cmp, s)) == multiset(s) && |QuickSorted(cmp, s)| == |s|
    decreases |s|
  {
    if |s| > 1 {
      var low, high := Lows(cmp, s[0], s[1..]), Highs(cmp, s[0], s[1..]);
      PartsKeepAll(cmp, s[0], s[1..]);
      SortPermutes(cmp, low);
      SortPermutes(cmp, high);
      Joined(QuickSorted(cmp, low), s[0], QuickSorted(cmp, high), low, high, s);
    }
  }

  lemma Joined<T>(a: seq<T>, key: T, b: seq<T>, low: seq<T>, high: seq<T>, s: seq<T>)
    requires |s| > 0 && key == s[0] && multiset(a) == multiset(low) && multiset(b) == multiset(high)
    requires multiset(low) + multiset(high) == multiset(s[1..])
    ensures multiset(a + [key] + b) == multiset(s)
  {
    assert s == [s[0]] + s[1..];
  }

  lemma SameElements<T>(a: seq<T>, b: seq<T>, x: T)
    requires multiset(a) == multiset(b) && x in a
    ensures x in b
  {
    assert x in multiset(a);
  }

  lemma {:induction false} SortAscends<T(!new)>(cmp: Comparison<T>, s: seq<T>)
    requires TotalPreorder(cmp)
    ensures Ascending(cmp, QuickSorted(cmp, s))
    decreases |s|
  {
    if |s| > 1 {
      var key := s[0];
      var low, high := Lows(cmp, key, s[1..]), Highs(cmp, key, s[1..]);
      PartsKeepAll(cmp, key, s[1..]);
      SortAscends(cmp, low);
      SortAscends(cmp, high);
      SortPermutes(cmp, low);
      SortPermutes(cmp, high);
      forall x <- QuickSorted(cmp, low)
        ensures cmp(x, key) <= 0
      {
        SameElements(QuickSorted(cmp, low), low, x);
      }
      forall x <- QuickSorted(cmp, high)
        ensures cmp(key, x) <= 0
      {
        SameElements(QuickSorted(cmp, high), high, x);
      }
      AscendingAround(cmp, QuickSorted(cmp, low), key, QuickSorted(cmp, high));
    }
  }

  lemma AscendingAround<T(!new)>(cmp: Comparison<T>, a: seq<T>, key: T, b: seq<T>)
    requires TotalPreorder(cmp) && Ascending(cmp, a) && Ascending(cmp, b)
    requires (forall x <- a :: cmp(x, key) <= 0) && (forall x <- b :: cmp(key, x) <= 0)
    ensures Ascending(cmp, a + [key] + b)
  {
    var s := a + [key] + b;
    forall i, j | 0 <= i < j < |s|
      ensures cmp(s[i], s[j]) <= 0
    {
      if i < |a| && j > |a| {
        assert cmp(s[i], key) <= 0 && cmp(key, s[j]) <= 0;
      }
    }
  }

  // ----- in place ------------------------------------------------------------------------------

  lemma OneMoreRead<T>(s: seq<T>, a: nat, b: nat)
    requires a <= b < |s|
    ensures s[a..b + 1] == s[a..b] + [s[b]]
  {
  }

  lemma PartsNext<T>(cmp: Comparison<T>, key: T, s: seq<T>, x: T)
    ensures Lows(cmp, key, s + [x]) == if cmp(x, key) > 0 then Lows(cmp, key, s) else Lows(cmp, key, s) + [x]
    ensures Highs(cmp, key, s + [x]) == if cmp(x, key) > 0 then [x] + Highs(cmp, key, s) else Highs(cmp, key, s)
  {
    assert (s + [x])[..|s + [x]| - 1] == s;
  }

  lemma Put<T>(d: seq<T>, p: nat, x: T, a: nat, b: nat)
    requires p < |d| && a <= b <= |d|
    ensures p < a || p >= b ==> d[p := x][a..b] == d[a..b]
    ensures a <= p && p + 1 == b ==> d[p := x][a..b] == d[a..p] + [x]
    ensures a == p < b ==> d[p := x][a..b] == [x] + d[a + 1..b]
  {
  }

  /** Nothing outside of [head, tail] has changed. */
  ghost predicate SameOutside<T>(d: seq<T>, e: seq<T>, head: nat, tail: nat) {
    |d| == |e| && head <= tail < |d| && d[..head] == e[..head] && d[tail + 1..] == e[tail + 1..]
  }

  lemma PutInside<T>(d: seq<T>, e: seq<T>, head: nat, tail: nat, p: nat, x: T)
    requires SameOutside(d, e, head, tail) && head <= p <= tail
    ensures SameOutside(d[p := x], e, head, tail)
  {
  }

  lemma PutHigh<T>(cmp: Comparison<T>, key: T, s: seq<T>, x: T, d: seq<T>, head: nat, i: nat, j: nat, tail: nat)
    requires cmp(x, key) > 0 && head <= i <= j <= tail < |d|
    requires d[head..i] == Lows(cmp, key, s) && d[j + 1..tail + 1] == Highs(cmp, key, s)
    ensures d[j := x][head..i] == Lows(cmp, key, s + [x]) && d[j := x][j..tail + 1] == Highs(cmp, key, s + [x])
  {
    hide Lows, Highs;
    PartsNext(cmp, key, s, x);
    Put(d, j, x, head, i);
    Put(d, j, x, j, tail + 1);
  }

  lemma PutLow<T>(cmp: Comparison<T>, key: T, s: seq<T>, x: T, d: seq<T>, head: nat, i: nat, j: nat, tail: nat)
    requires cmp(x, key) <= 0 && head <= i <= j <= tail < |d|
    requires d[head..i] == Lows(cmp, key, s) && d[j + 1..tail + 1] == Highs(cmp, key, s)
    ensures d[i := x][head..i + 1] == Lows(cmp, key, s + [x])
    ensures d[i := x][j + 1..tail + 1] == Highs(cmp, key, s + [x])
  {
    hide Lows, Highs;
    PartsNext(cmp, key, s, x);
    Put(d, i, x, head, i + 1);
    Put(d, i, x, j + 1, tail + 1);
  }

  /** The elements after the key go to both ends of the other buffer; the key's place is between. */
  method Partition<T>(src: array<T>, dst: array<T>, head: nat, tail: nat, cmp: Comparison<T>) returns (i: nat)
    requires src != dst && src.Length == dst.Length && head < tail < src.Length
    modifies dst
    ensures head <= i <= tail
    ensures dst[..][head..i] == Lows(cmp, src[head], src[head + 1..tail + 1])
    ensures dst[..][i + 1..tail + 1] == Highs(cmp, src[head], src[head + 1..tail + 1])
    ensures SameOutside(dst[..], old(dst[..]), head, tail)
  {
    hide Lows, Highs, SameOutside;
    var key := src[head];
    var j: int;
    i, j := head, tail;
    var idx := head + 1;
    ghost var d := dst[..];
    PartsOfNothing(cmp, key);
    SameAtFirst(d, head, tail);
    while idx <= tail
      invariant head + 1 <= idx <= tail + 1 && head <= i <= j <= tail && i - head + tail - j == idx - head - 1
      invariant dst[..] == d && |d| == dst.Length
      invariant d[head..i] == Lows(cmp, key, src[head + 1..idx])
      invariant d[j + 1..tail + 1] == Highs(cmp, key, src[head + 1..idx])
      invariant SameOutside(d, old(dst[..]), head, tail)
    {
      var x := src[idx];
      OneMoreRead(src[..], head + 1, idx);
      if cmp(x, key) > 0 {
        dst[j] := x;
        PutInside(d, old(dst[..]), head, tail, j, x);
        PutHigh(cmp, key, src[head + 1..idx], x, d, head, i, j, tail);
        d := d[j := x];
        j := j - 1;
      } else {
        dst[i] := x;
        PutInside(d, old(dst[..]), head, tail, i, x);
        PutLow(cmp, key, src[head + 1..idx], x, d, head, i, j, tail);
        d := d[i := x];
        i := i + 1;
      }
      idx := idx + 1;
    }
  }

  lemma PartsOfNothing<T>(cmp: Comparison<T>, key: T)
    ensures Lows(cmp, key, []) == [] && Highs(cmp, key, []) == []
  {
  }

  lemma SameAtFirst<T>(d: seq<T>, head: nat, tail: nat)
    requires head <= tail < |d|
    ensures SameOutside(d, d, head, tail)
  {
  }

  lemma SortedParts<T>(cmp: Comparison<T>, s: seq<T>, low: seq<T>, high: seq<T>, r: seq<T>)
    requires |s| > 1 && low == Lows(cmp, s[0], s[1..]) && high == Highs(cmp, s[0], s[1..])
    requires r == QuickSorted(cmp, low) + [s[0]] + QuickSorted(cmp, high)
    ensures r == QuickSorted(cmp, s)
  {
  }

  /** A change within a part of [head, tail] is one within it, and keeps the rest of it. */
  lemma Within<T>(d: seq<T>, e: seq<T>, was: seq<T>, a: nat, b: nat, head: nat, tail: nat)
    requires SameOutside(e, was, head, tail) && SameOutside(d, e, a, b) && head <= a && b <= tail
    ensures SameOutside(d, was, head, tail)
    ensures d[head..a] == e[head..a] && d[b + 1..tail + 1] == e[b + 1..tail + 1]
  {
    assert d[..a] == e[..a] && d[b + 1..] == e[b + 1..];
    assert d[..head] == d[..a][..head] && d[head..a] == d[..a][head..] && e[head..a] == e[..a][head..];
    assert d[tail + 1..] == d[b + 1..][tail - b..] && e[tail + 1..] == e[b + 1..][tail - b..];
    assert d[b + 1..tail + 1] == d[b + 1..][..tail - b] && e[b + 1..tail + 1] == e[b + 1..][..tail - b];
  }

  /** __sort_sub__: src_ary tells which buffer the elements are in. */
  method SortSub<T>(sorted: array<T>, work: array<T>, srcAry: nat, head: nat, tail: nat, cmp: Comparison<T>)
    requires sorted != work && sorted.Length == work.Length && head <= tail < sorted.Length && srcAry <= 1
    modifies sorted, work
    ensures sorted[..][head..tail + 1] == QuickSorted(cmp, old((if srcAry == 0 then sorted else work)[head..tail + 1]))
    ensures SameOutside(sorted[..], old(sorted[..]), head, tail) && SameOutside(work[..], old(work[..]), head, tail)
    decreases tail - head
  {
    if head == tail {
      if srcAry == 1 {
        sorted[head] := work[head];
      }
      return;
    }
    hide Lows, Highs, QuickSorted, SameOutside;
    var src, dst := if srcAry == 0 then sorted else work, if srcAry == 0 then work else sorted;
    ghost var s, was, other := src[head..tail + 1], sorted[..], work[..];
    var key := src[head];
    SameAtFirst(src[..], head, tail);
    var i := Partition(src, dst, head, tail, cmp);
    assert s[0] == key && s[1..] == src[head + 1..tail + 1];
    ghost var low, high := dst[..][head..i], dst[..][i + 1..tail + 1];
    ghost var d := sorted[..];
    PutInside(d, was, head, tail, i, key);
    Put(d, i, key, head, i);
    Put(d, i, key, i + 1, tail + 1);
    sorted[i] := key;
    assert sorted[..] == d[i := key];
    assert dst[..][head..i] == low && dst[..][i + 1..tail + 1] == high;
    SortBoth(sorted, work, srcAry, head, i, tail, cmp, low, high, was, other);
    SortedParts(cmp, s, low, high, sorted[..][head..tail + 1]);
  }

  /** Both parts, from the other buffer. */
  method SortBoth<T>(sorted: array<T>, work: array<T>, srcAry: nat, head: nat, i: nat, tail: nat, cmp: Comparison<T>,
                     ghost low: seq<T>, ghost high: seq<T>, ghost was: seq<T>, ghost other: seq<T>)
    requires sorted != work && sorted.Length == work.Length && head <= i <= tail < sorted.Length && head < tail
      && srcAry <= 1
    requires var dst := if srcAry == 0 then work else sorted;
             dst[..][head..i] == low && dst[..][i + 1..tail + 1] == high
    requires SameOutside(sorted[..], was, head, tail) && SameOutside(work[..], other, head, tail)
    modifies sorted, work
    ensures sorted[..][head..tail + 1] == QuickSorted(cmp, low) + [old(sorted[i])] + QuickSorted(cmp, high)
    ensures SameOutside(sorted[..], was, head, tail) && SameOutside(work[..], other, head, tail)
    decreases tail - head, 0
  {
    hide QuickSorted, SameOutside;
    NothingToSort(cmp, low);
    NothingToSort(cmp, high);
    ghost var d, w := sorted[..], work[..];
    if i > head {
      SortSub(sorted, work, 1 - srcAry, head, i - 1, cmp);
      Within(sorted[..], d, was, head, i - 1, head, tail);
      Within(work[..], w, other, head, i - 1, head, tail);
      Tails(sorted[..], d, i, tail);
      Tails(work[..], w, i, tail);
    }
    ghost var d1, w1 := sorted[..], work[..];
    assert d1[head..i] == QuickSorted(cmp, low) && d1[i] == d[i];
    if i < tail {
      SortSub(sorted, work, 1 - srcAry, i + 1, tail, cmp);
      Within(sorted[..], d1, was, i + 1, tail, head, tail);
      Within(work[..], w1, other, i + 1, tail, head, tail);
      Heads(sorted[..], d1, head, i);
    }
    Three(sorted[..], head, i, tail);
  }

  lemma Tails<T>(d: seq<T>, e: seq<T>, i: nat, tail: nat)
    requires i <= tail < |d| == |e| && d[i..tail + 1] == e[i..tail + 1]
    ensures d[i] == e[i] && d[i + 1..tail + 1] == e[i + 1..tail + 1]
  {
    assert d[i] == d[i..tail + 1][0] && e[i] == e[i..tail + 1][0];
    assert d[i + 1..tail + 1] == d[i..tail + 1][1..] && e[i + 1..tail + 1] == e[i..tail + 1][1..];
  }

  lemma Heads<T>(d: seq<T>, e: seq<T>, head: nat, i: nat)
    requires head <= i < |d| == |e| && d[head..i + 1] == e[head..i + 1]
    ensures d[i] == e[i] && d[head..i] == e[head..i]
  {
    assert d[i] == d[head..i + 1][i - head] && e[i] == e[head..i + 1][i - head];
    forall p | head <= p < i ensures d[p] == e[p] {
      assert d[p] == d[head..i + 1][p - head] && e[p] == e[head..i + 1][p - head];
    }
  }

  lemma Three<T>(d: seq<T>, head: nat, i: nat, tail: nat)
    requires head <= i <= tail < |d|
    ensures d[head..tail + 1] == d[head..i] + [d[i]] + d[i + 1..tail + 1]
  {
  }

  lemma NothingToSort<T>(cmp: Comparison<T>, s: seq<T>)
    ensures s == [] ==> QuickSorted(cmp, s) == []
  {
  }

  /** sort: nil fills the second buffer. */
  method Sort<T>(each: seq<T>, nil: T, cmp: Comparison<T>) returns (ary: array<T>)
    ensures fresh(ary) && ary[..] == QuickSorted(cmp, each)
  {
    ary := new T[|each|](i requires 0 <= i < |each| => each[i]);
    assert ary[..] == each;
    if ary.Length > 0 {
      var work := new T[ary.Length](_ => nil);
      assert ary[0..ary.Length] == each;
      SortSub(ary, work, 0, 0, ary.Length - 1, cmp);
      assert ary[..][0..ary.Length] == ary[..];
    }
  }

  /** A sorted permutation of the input, for every total preorder. */
  method SortInOrder<T(!new)>(each: seq<T>, nil: T, cmp: Comparison<T>) returns (r: seq<T>)
    requires TotalPreorder(cmp)
    ensures multiset(r) == multiset(each) && Ascending(cmp, r)
  {
    var ary := Sort(each, nil, cmp);
    SortPermutes(cmp, each);
    SortAscends(cmp, each);
    return ary[..];
  }

  /** Numbers, compared by their difference. */
  method SortNumbers(each: seq<int>) returns (r: seq<int>)
    ensures multiset(r) == multiset(each) && forall i, j :: 0 <= i < j < |r| ==> r[i] <= r[j]
  {
    r := SortInOrder(each, 0, (a: int, b: int) => a - b);
  }
}
