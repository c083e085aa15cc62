/**
 The stable sort export and restore share: what it is, that it is unique, and
 the in-place insertion that computes it.
 */
module StableSorting {
  import opened Seqs
  import opened Trees

  // ---- What a stable sort is ----

  ghost predicate SortedBy<T>(rank: T -> nat, s: seq<T>) {
    forall i, j :: 0 <= i < j < |s| ==> rank(s[i]) <= rank(s[j])
  }

  /** The subsequence, in order, of the elements that satisfy a predicate. */
  function Filter<T>(p: T -> bool, s: seq<T>): seq<T> {
    if s == [] then []
    else if p(s[|s| - 1]) then Filter(p, s[..|s| - 1]) + [s[|s| - 1]]
    else Filter(p, s[..|s| - 1])
  }

  function HasRank<T>(rank: T -> nat, n: nat): T -> bool { t => rank(t) == n }

  /** Sorted, a permutation, and elements of equal rank in their given order. */
  ghost predicate IsStableSortOf<T>(rank: T -> nat, r: seq<T>, s: seq<T>) {
    && SortedBy(rank, r)
    && multiset(r) == multiset(s)
    && forall n: nat :: Filter(HasRank(rank, n), r) == Filter(HasRank(rank, n), s)
  }

  /** One insertion: move left past every element of greater rank. */
  function Insert<T>(rank: T -> nat, s: seq<T>, x: T): (r: seq<T>)
    ensures |r| == |s| + 1
  {
    if s == [] || rank(s[|s| - 1]) <= rank(x) then s + [x]
    else Insert(rank, s[..|s| - 1], x) + [s[|s| - 1]]
  }

  function StableSort<T>(rank: T -> nat, s: seq<T>): (r: seq<T>)
    ensures |r| == |s|
  {
    if s == [] then [] else Insert(rank, StableSort(rank, s[..|s| - 1]), s[|s| - 1])
  }

  lemma FilterSnoc<T>(p: T -> bool, s: seq<T>, x: T)
    ensures Filter(p, s + [x]) == if p(x) then Filter(p, s) + [x] else Filter(p, s)
  {
  }

  lemma {:induction false} FilterAppend<T>(p: T -> bool, a: seq<T>, b: seq<T>)
    ensures Filter(p, a + b) == Filter(p, a) + Filter(p, b)
    decreases |b|
  {
    if b == [] {
      assert a + b == a;
    } else {
      var front, last := b[..|b| - 1], b[|b| - 1];
      FilterAppend(p, a, front);
      assert a + b == (a + front) + [last];
      FilterSnoc(p, a + front, last);
    }
  }

  lemma {:induction false} FilterSatisfies<T>(p: T -> bool, s: seq<T>, t: T)
    ensures t in Filter(p, s) <==> t in s && p(t)
    decreases |s|
  {
    if s != [] {
      FilterSatisfies(p, s[..|s| - 1], t);
      SplitLast(s);
    }
  }

  /** Where an insertion ends: just after the last element of rank at most x's. */
  ghost function Slot<T>(rank: T -> nat, s: seq<T>, x: T): (j: nat)
    ensures j <= |s|
    ensures forall k :: j <= k < |s| ==> rank(x) < rank(s[k])
    ensures j > 0 ==> rank(s[j - 1]) <= rank(x)
  {
    if s == [] then 0
    else if rank(s[|s| - 1]) <= rank(x) then |s|
    else Slot(rank, s[..|s| - 1], x)
  }

  lemma {:induction false} InsertAtSlot<T>(rank: T -> nat, s: seq<T>, x: T)
    ensures var j := Slot(rank, s, x); Insert(rank, s, x) == s[..j] + [x] + s[j..]
    decreases |s|
  {
    if s != [] && rank(x) < rank(s[|s| - 1]) {
      var front, j := s[..|s| - 1], Slot(rank, s, x);
      InsertAtSlot(rank, front, x);
      assert front[..j] == s[..j];
      assert s[j..] == front[j..] + [s[|s| - 1]];
    }
  }

  lemma InsertSorts<T>(rank: T -> nat, s: seq<T>, x: T)
    requires SortedBy(rank, s)
    ensures SortedBy(rank, Insert(rank, s, x))
    ensures multiset(Insert(rank, s, x)) == multiset(s) + multiset{x}
  {
    InsertAtSlot(rank, s, x);
    var j := Slot(rank, s, x);
    SpliceSorted(rank, s, x, j);
    SpliceMultiset(s, x, j);
  }

  lemma SpliceSorted<T>(rank: T -> nat, s: seq<T>, x: T, j: nat)
    requires SortedBy(rank, s) && j <= |s|
    requires forall k :: j <= k < |s| ==> rank(x) < rank(s[k])
    requires j > 0 ==> rank(s[j - 1]) <= rank(x)
    ensures SortedBy(rank, s[..j] + [x] + s[j..])
  {
  }

  lemma SpliceMultiset<T>(s: seq<T>, x: T, j: nat)
    requires j <= |s|
    ensures multiset(s[..j] + [x] + s[j..]) == multiset(s) + multiset{x}
  {
    assert s == s[..j] + s[j..];
  }

  lemma {:induction false} StableSortSorts<T>(rank: T -> nat, s: seq<T>)
    ensures SortedBy(rank, StableSort(rank, s))
    ensures multiset(StableSort(rank, s)) == multiset(s)
    decreases |s|
  {
    if s != [] {
      var front := s[..|s| - 1];
      StableSortSorts(rank, front);
      InsertSorts(rank, StableSort(rank, front), s[|s| - 1]);
      SplitLast(s);
    }
  }

  /** Inserting never reorders two elements that satisfy p when p fixes the rank. */
  lemma {:induction false} InsertKeepsOrder<T(!new)>(rank: T -> nat, p: T -> bool, n: nat, s: seq<T>, x: T)
    requires forall t :: p(t) ==> rank(t) == n
    ensures Filter(p, Insert(rank, s, x)) == Filter(p, s + [x])
    decreases |s|
  {
    if s != [] && rank(x) < rank(s[|s| - 1]) {
      var front, last := s[..|s| - 1], s[|s| - 1];
      SplitLast(s);
      InsertKeepsOrder(rank, p, n, front, x);
      FilterSnoc(p, Insert(rank, front, x), last);
      FilterSnoc(p, front, x);
      FilterSnoc(p, front, last);
      FilterSnoc(p, s, x);
    }
  }

  /** Stability, for every class of elements that share a rank. */
  lemma {:induction false} StableSortKeepsOrder<T(!new)>(rank: T -> nat, p: T -> bool, n: nat, s: seq<T>)
    requires forall t :: p(t) ==> rank(t) == n
    ensures Filter(p, StableSort(rank, s)) == Filter(p, s)
    decreases |s|
  {
    if s != [] {
      var front, last := s[..|s| - 1], s[|s| - 1];
      StableSortKeepsOrder(rank, p, n, front);
      InsertKeepsOrder(rank, p, n, StableSort(rank, front), last);
      FilterSnoc(p, StableSort(rank, front), last);
      FilterSnoc(p, front, last);
      SplitLast(s);
    }
  }

  lemma StableSortIsStable<T(!new)>(rank: T -> nat, s: seq<T>)
    ensures IsStableSortOf(rank, StableSort(rank, s), s)
  {
    StableSortSorts(rank, s);
    forall n: nat
      ensures Filter(HasRank(rank, n), StableSort(rank, s)) == Filter(HasRank(rank, n), s)
    {
      StableSortKeepsOrder(rank, HasRank(rank, n), n, s);
    }
  }

  /** There is only one stable sort: sortedness, contents and stability fix the result. */
  lemma {:induction false} StableSortUnique<T(!new)>(rank: T -> nat, a: seq<T>, b: seq<T>)
    requires SortedBy(rank, a) && SortedBy(rank, b) && multiset(a) == multiset(b)
    requires forall n: nat :: Filter(HasRank(rank, n), a) == Filter(HasRank(rank, n), b)
    ensures a == b
    decreases |a|
  {
    assert |multiset(a)| == |a| && |multiset(b)| == |b|;
    if a != [] {
      SameLast(rank, a, b);
      var x, a', b' := a[|a| - 1], a[..|a| - 1], b[..|b| - 1];
      assert a == a' + [x] && b == b' + [x];
      forall m: nat
        ensures Filter(HasRank(rank, m), a') == Filter(HasRank(rank, m), b')
      {
        assert Filter(HasRank(rank, m), a) == Filter(HasRank(rank, m), b);
        SameFrontFilter(HasRank(rank, m), a', b', x);
      }
      SameFrontMultiset(a', b', x);
      StableSortUnique(rank, a', b');
    }
  }

  lemma SameFront<T>(a: seq<T>, b: seq<T>, x: T)
    requires a + [x] == b + [x]
    ensures a == b
  {
    assert a == (a + [x])[..|a + [x]| - 1];
    assert b == (b + [x])[..|b + [x]| - 1];
  }

  lemma SameFrontMultiset<T>(a: seq<T>, b: seq<T>, x: T)
    requires multiset(a + [x]) == multiset(b + [x])
    ensures multiset(a) == multiset(b)
  {
    assert multiset(a) == multiset(a + [x]) - multiset{x};
    assert multiset(b) == multiset(b + [x]) - multiset{x};
  }

  lemma SameFrontFilter<T>(p: T -> bool, a: seq<T>, b: seq<T>, x: T)
    requires Filter(p, a + [x]) == Filter(p, b + [x])
    ensures Filter(p, a) == Filter(p, b)
  {
    FilterSnoc(p, a, x);
    FilterSnoc(p, b, x);
    if p(x) {
      SameFront(Filter(p, a), Filter(p, b), x);
    }
  }

  lemma SameLast<T(!new)>(rank: T -> nat, a: seq<T>, b: seq<T>)
    requires SortedBy(rank, a) && SortedBy(rank, b) && multiset(a) == multiset(b)
    requires forall n: nat :: Filter(HasRank(rank, n), a) == Filter(HasRank(rank, n), b)
    requires a != [] && b != []
    ensures a[|a| - 1] == b[|b| - 1]
  {
    var x, y := a[|a| - 1], b[|b| - 1];
    assert x in multiset(b) && y in multiset(a);
    assert x in b && y in a;
    assert rank(x) == rank(y);
    var p := HasRank(rank, rank(x));
    assert Filter(p, a) == Filter(p, b);
    assert Filter(p, a)[|Filter(p, a)| - 1] == x;
    assert Filter(p, b)[|Filter(p, b)| - 1] == y;
  }

  /** Sorting a sorted sequence changes nothing. */
  lemma {:induction false} SortOfSorted<T>(rank: T -> nat, s: seq<T>)
    requires SortedBy(rank, s)
    ensures StableSort(rank, s) == s
    decreases |s|
  {
    if s != [] {
      var front, last := s[..|s| - 1], s[|s| - 1];
      SortOfSorted(rank, front);
      SplitLast(s);
      assert front != [] ==> rank(front[|front| - 1]) <= rank(last);
    }
  }

  // ---- The sort as it runs, in place, on objects of the heap ----

  /** The rank of each listed object, frozen at one moment. */
  ghost function RankNow(rank: Tree -> nat, objects: seq<Unstructured>): Unstructured -> nat
    reads set o | o in objects
  {
    var now := map o | o in objects :: rank(o.Object);
    o => if o in now then now[o] else 0
  }

  lemma RankNowReads(rank: Tree -> nat, objects: seq<Unstructured>)
    ensures forall k :: 0 <= k < |objects| ==> RankNow(rank, objects)(objects[k]) == rank(objects[k].Object)
  {
  }

  /** Sorts the objects in place; only the order of the references changes. */
  method SliceStable(items: array<Unstructured>, rank: Tree -> nat)
    modifies items
    ensures multiset(items[..]) == old(multiset(items[..]))
    ensures TreesOf(items[..]) == StableSort(rank, old(TreesOf(items[..])))
  {
    hide StableSort, RankNow;
    ghost var was := items[..];
    ghost var key := RankNow(rank, was);
    RankNowReads(rank, was);
    SortByKey(items, rank, key);
    StableSortSorts(key, was);
    SortOfTrees(rank, key, was);
  }

  /** Adjacent swaps, from the left, exactly as an insertion sort does them. */
  method SortByKey(items: array<Unstructured>, rank: Tree -> nat, ghost key: Unstructured -> nat)
    requires forall k :: 0 <= k < items.Length ==> key(items[k]) == rank(items[k].Object)
    modifies items
    ensures items[..] == StableSort(key, old(items[..]))
  {
    hide StableSort, Insert;
    ghost var was := items[..];
    var i := 0;
    SortNothing(key, was);
    while i < items.Length
      invariant 0 <= i <= items.Length
      invariant items[..] == StableSort(key, was[..i]) + was[i..]
    {
      SortKeepsKeys(rank, key, was[..i]);
      SortOneMore(key, was, items[..], i);
      InsertAt(items, rank, key, i);
      i := i + 1;
    }
  }

  lemma SortNothing(key: Unstructured -> nat, was: seq<Unstructured>)
    ensures was == StableSort(key, was[..0]) + was[0..]
    ensures StableSort(key, was) == StableSort(key, was[..|was|]) + was[|was|..]
  {
    assert was[..|was|] == was;
  }

  lemma SortOneMore(key: Unstructured -> nat, was: seq<Unstructured>, now: seq<Unstructured>, i: nat)
    requires i < |was|
    requires now == StableSort(key, was[..i]) + was[i..]
    ensures |now| == |was| && now[i] == was[i]
    ensures now[..i] == StableSort(key, was[..i])
    ensures Insert(key, now[..i], now[i]) + now[i + 1..] == StableSort(key, was[..i + 1]) + was[i + 1..]
  {
    assert now[i + 1..] == was[i + 1..];
    assert was[..i + 1][..i] == was[..i];
  }

  method InsertAt(items: array<Unstructured>, rank: Tree -> nat, ghost key: Unstructured -> nat, i: nat)
    requires i < items.Length
    requires forall k :: 0 <= k <= i ==> key(items[k]) == rank(items[k].Object)
    modifies items
    ensures items[..] == Insert(key, old(items[..i]), old(items[i])) + old(items[i + 1..])
  {
    hide Spliced, Insert;
    ghost var front, back := items[..i], items[i + 1..];
    ghost var x := items[i];
    var j := i;
    SpliceWhole(items[..], i);
    while j > 0 && rank(items[j].Object) < rank(items[j - 1].Object)
      invariant 0 <= j <= i
      invariant items[..] == Spliced(front, x, back, j)
      invariant forall k :: j <= k < i ==> key(x) < key(front[k])
    {
      SpliceReads(front, x, back, j);
      SwapSplice(front, x, back, j);
      assert items[..][j] == items[j] && items[..][j - 1] == items[j - 1];
      Swap(items, j);
      j := j - 1;
    }
    if j > 0 {
      SpliceReads(front, x, back, j);
      assert items[..][j] == items[j] && items[..][j - 1] == items[j - 1];
    }
    InsertHere(key, front, x, j);
    SpliceInsert(key, front, x, back, j);
  }

  /** One object placed between the first j and the rest. */
  ghost function Spliced(front: seq<Unstructured>, x: Unstructured, back: seq<Unstructured>, j: nat): seq<Unstructured>
    requires j <= |front|
  {
    front[..j] + [x] + front[j..] + back
  }

  lemma SpliceWhole(all: seq<Unstructured>, i: nat)
    requires i < |all|
    ensures all == Spliced(all[..i], all[i], all[i + 1..], i)
  {
  }

  lemma SpliceInsert(key: Unstructured -> nat, front: seq<Unstructured>, x: Unstructured, back: seq<Unstructured>,
                     j: nat)
    requires j <= |front| && Insert(key, front, x) == front[..j] + [x] + front[j..]
    ensures Spliced(front, x, back, j) == Insert(key, front, x) + back
  {
  }

  lemma SpliceReads(front: seq<Unstructured>, x: Unstructured, back: seq<Unstructured>, j: nat)
    requires 0 < j <= |front|
    ensures |Spliced(front, x, back, j)| > j
    ensures Spliced(front, x, back, j)[j - 1] == front[j - 1] && Spliced(front, x, back, j)[j] == x
  {
  }

  lemma InsertHere(key: Unstructured -> nat, front: seq<Unstructured>, x: Unstructured, j: nat)
    requires j <= |front|
    requires forall k :: j <= k < |front| ==> key(x) < key(front[k])
    requires j > 0 ==> key(front[j - 1]) <= key(x)
    ensures Insert(key, front, x) == front[..j] + [x] + front[j..]
  {
    hide Insert;
    InsertAtSlot(key, front, x);
    assert Slot(key, front, x) == j;
  }

  method Swap(items: array<Unstructured>, j: nat)
    requires 0 < j < items.Length
    modifies items
    ensures items[..] == old(items[..])[j := old(items[j - 1])][j - 1 := old(items[j])]
  {
    items[j], items[j - 1] := items[j - 1], items[j];
  }

  lemma SwapSplice(front: seq<Unstructured>, x: Unstructured, back: seq<Unstructured>, j: nat)
    requires 0 < j <= |front| && j < |Spliced(front, x, back, j)|
    ensures Spliced(front, x, back, j)[j := front[j - 1]][j - 1 := x] == Spliced(front, x, back, j - 1)
  {
  }

  /** Sorting the objects by a frozen rank sorts their trees by rank. */
  lemma {:induction false} SortOfTrees(rank: Tree -> nat, key: Unstructured -> nat, s: seq<Unstructured>)
    requires forall k :: 0 <= k < |s| ==> key(s[k]) == rank(s[k].Object)
    ensures TreesOf(StableSort(key, s)) == StableSort(rank, TreesOf(s))
    decreases |s|
  {
    if s != [] {
      var front, last := s[..|s| - 1], s[|s| - 1];
      SortOfTrees(rank, key, front);
      assert TreesOf(s)[..|s| - 1] == TreesOf(front);
      var sorted := StableSort(key, front);
      SortKeepsKeys(rank, key, front);
      InsertOfTrees(rank, key, sorted, last);
    }
  }

  lemma SortKeepsKeys(rank: Tree -> nat, key: Unstructured -> nat, s: seq<Unstructured>)
    requires forall k :: 0 <= k < |s| ==> key(s[k]) == rank(s[k].Object)
    ensures forall k :: 0 <= k < |s| ==> key(StableSort(key, s)[k]) == rank(StableSort(key, s)[k].Object)
  {
    StableSortSorts(key, s);
    var sorted := StableSort(key, s);
    forall k | 0 <= k < |sorted| ensures key(sorted[k]) == rank(sorted[k].Object) {
      assert sorted[k] in multiset(s);
    }
  }

  lemma TreesOfSnoc(s: seq<Unstructured>, x: Unstructured)
    ensures TreesOf(s + [x]) == TreesOf(s) + [x.Object]
  {
  }

  lemma {:induction false} InsertOfTrees(rank: Tree -> nat, key: Unstructured -> nat, s: seq<Unstructured>,
                                         x: Unstructured)
    requires forall k :: 0 <= k < |s| ==> key(s[k]) == rank(s[k].Object)
    requires key(x) == rank(x.Object)
    ensures TreesOf(Insert(key, s, x)) == Insert(rank, TreesOf(s), x.Object)
    decreases |s|
  {
    if s == [] || key(s[|s| - 1]) <= key(x) {
      TreesOfSnoc(s, x);
    } else {
      var front, last := s[..|s| - 1], s[|s| - 1];
      InsertOfTrees(rank, key, front, x);
      assert TreesOf(s)[..|s| - 1] == TreesOf(front);
      TreesOfSnoc(Insert(key, front, x), last);
    }
  }
}
