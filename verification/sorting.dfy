/**
 * `Array.prototype.sort` with a numeric comparator `(a, b) => key(a) - key(b)`,
 * as used for the dashboard's time series and order lists. The engine's sort
 * is stable, and so is this insertion sort: an element is placed before the
 * first element whose key is not smaller, so elements with equal keys keep
 * their relative order (SortByStable).
 */
module Sorting {
  import opened Common

  predicate SortedBy<T>(s: seq<T>, key: T -> int) {
    forall i, j :: 0 <= i < j < |s| ==> key(s[i]) <= key(s[j])
  }

  function Insert<T>(x: T, s: seq<T>, key: T -> int): (r: seq<T>)
    requires SortedBy(s, key)
    ensures |r| == |s| + 1
    ensures multiset(r) == multiset(s) + multiset{x}
    ensures SortedBy(r, key)
    ensures key(r[0]) == key(x) || (|s| > 0 && key(r[0]) == key(s[0]))
  {
    if |s| == 0 then [x]
    else if key(x) <= key(s[0]) then
      PrependSorted(x, s, key);
      [x] + s
    else
      var rest := Insert(x, s[1..], key);
      assert s == [s[0]] + s[1..];
      PrependSorted(s[0], rest, key);
      [s[0]] + rest
  }

  /** A sorted sequence stays sorted under a new head whose key is not larger than the old head's. */
  lemma PrependSorted<T>(x: T, s: seq<T>, key: T -> int)
    requires SortedBy(s, key)
    requires |s| > 0 ==> key(x) <= key(s[0])
    ensures SortedBy([x] + s, key)
  {
    var xs := [x] + s;
    forall i, j | 0 <= i < j < |xs|
      ensures key(xs[i]) <= key(xs[j])
    {
      if i > 0 {
        assert xs[i] == s[i - 1] && xs[j] == s[j - 1];
      } else {
        assert xs[j] == s[j - 1];
      }
    }
  }

  /** The elements of `s` reordered by ascending key. */
  function SortBy<T>(s: seq<T>, key: T -> int): (r: seq<T>)
    ensures |r| == |s|
    ensures multiset(r) == multiset(s)
    ensures SortedBy(r, key)
  {
    if |s| == 0 then []
    else
      assert s == [s[0]] + s[1..];
      Insert(s[0], SortBy(s[1..], key), key)
  }

  /** Sorting an already sorted sequence leaves it as it is. */
  lemma {:induction false} SortBySorted<T>(s: seq<T>, key: T -> int)
    requires SortedBy(s, key)
    ensures SortBy(s, key) == s
  {
    if |s| == 0 {
      assert SortBy(s, key) == [];
    } else {
      var tail := s[1..];
      SortedTail(s, key);
      SortBySorted(tail, key);
      HeadFirst(s, key);
      assert SortBy(s, key) == Insert(s[0], tail, key);
    }
  }

  /** The head of a sorted sequence is inserted back in front of the rest. */
  lemma HeadFirst<T>(s: seq<T>, key: T -> int)
    requires SortedBy(s, key) && |s| > 0
    ensures SortedBy(s[1..], key)
    ensures Insert(s[0], s[1..], key) == s
  {
    var tail := s[1..];
    SortedTail(s, key);
    if |tail| > 0 {
      assert tail[0] == s[1];
      assert key(s[0]) <= key(tail[0]);
    }
    assert s == [s[0]] + tail;
  }

  /** Dropping the head of a sorted sequence leaves it sorted. */
  lemma SortedTail<T>(s: seq<T>, key: T -> int)
    requires SortedBy(s, key) && |s| > 0
    ensures SortedBy(s[1..], key)
  {
    var tail := s[1..];
    forall i, j | 0 <= i < j < |tail|
      ensures key(tail[i]) <= key(tail[j])
    {
      assert tail[i] == s[i + 1] && tail[j] == s[j + 1];
    }
  }

  /** The test "has key `k`". */
  function HasKey<T>(key: T -> int, k: int): T -> bool {
    x => key(x) == k
  }

  /** Inserting `x` adds it in front of the elements with its key and leaves the other keys' runs alone. */
  lemma {:induction false} InsertKeepsKeyRun<T>(x: T, s: seq<T>, key: T -> int, k: int)
    requires SortedBy(s, key)
    ensures Filter(Insert(x, s, key), HasKey(key, k)) ==
              if key(x) == k then [x] + Filter(s, HasKey(key, k)) else Filter(s, HasKey(key, k))
    decreases |s|
  {
    var p := HasKey(key, k);
    if |s| == 0 {
      assert Insert(x, s, key) == [x] + s;
      FilterCons(x, s, p);
    } else if key(x) <= key(s[0]) {
      assert Insert(x, s, key) == [x] + s;
      FilterCons(x, s, p);
    } else {
      SortedTail(s, key);
      InsertKeepsKeyRun(x, s[1..], key, k);
      assert Insert(x, s, key) == [s[0]] + Insert(x, s[1..], key);
      PassHead(x, s, Insert(x, s[1..], key), key, k);
    }
  }

  /** Putting back a head whose key is below `x`'s keeps the key run that the rest had. */
  lemma PassHead<T>(x: T, s: seq<T>, rest: seq<T>, key: T -> int, k: int)
    requires |s| > 0 && key(s[0]) < key(x)
    requires Filter(rest, HasKey(key, k)) ==
               if key(x) == k then [x] + Filter(s[1..], HasKey(key, k)) else Filter(s[1..], HasKey(key, k))
    ensures Filter([s[0]] + rest, HasKey(key, k)) ==
              if key(x) == k then [x] + Filter(s, HasKey(key, k)) else Filter(s, HasKey(key, k))
  {
    var p := HasKey(key, k);
    FilterCons(s[0], rest, p);
    assert s == [s[0]] + s[1..];
    FilterCons(s[0], s[1..], p);
  }

  /**
   * Sorting is stable: the elements with any one key come out in the order
   * they went in.
   */
  lemma {:induction false} SortByStable<T>(s: seq<T>, key: T -> int, k: int)
    ensures Filter(SortBy(s, key), HasKey(key, k)) == Filter(s, HasKey(key, k))
  {
    if |s| > 0 {
      var tail := s[1..];
      SortByStable(tail, key, k);
      SortByUnfold(s, key);
      StableStep(s[0], tail, SortBy(tail, key), key, k);
      assert s == [s[0]] + tail;
    }
  }

  /** Inserting `x` into a stable reordering of `tail` gives a stable reordering of `[x] + tail`. */
  lemma StableStep<T>(x: T, tail: seq<T>, sortedTail: seq<T>, key: T -> int, k: int)
    requires SortedBy(sortedTail, key)
    requires Filter(sortedTail, HasKey(key, k)) == Filter(tail, HasKey(key, k))
    ensures Filter(Insert(x, sortedTail, key), HasKey(key, k)) == Filter([x] + tail, HasKey(key, k))
  {
    InsertKeepsKeyRun(x, sortedTail, key, k);
    FilterCons(x, tail, HasKey(key, k));
  }

  /** The recursive step of SortBy. */
  lemma SortByUnfold<T>(s: seq<T>, key: T -> int)
    requires |s| > 0
    ensures SortBy(s, key) == Insert(s[0], SortBy(s[1..], key), key)
  {
  }

  /** `f` summed over `s`. */
  function SumBy<T>(s: seq<T>, f: T -> int): int {
    if |s| == 0 then 0 else f(s[0]) + SumBy(s[1..], f)
  }

  lemma {:induction false} SumByInsert<T>(x: T, s: seq<T>, key: T -> int, f: T -> int)
    requires SortedBy(s, key)
    ensures SumBy(Insert(x, s, key), f) == f(x) + SumBy(s, f)
  {
    if |s| > 0 && key(x) > key(s[0]) {
      SumByInsert(x, s[1..], key, f);
      assert (([s[0]] + Insert(x, s[1..], key)))[1..] == Insert(x, s[1..], key);
    } else if |s| > 0 {
      assert ([x] + s)[1..] == s;
    }
  }

  /** Reordering by a key does not change a sum. */
  lemma {:induction false} SumBySortBy<T>(s: seq<T>, key: T -> int, f: T -> int)
    ensures SumBy(SortBy(s, key), f) == SumBy(s, f)
  {
    if |s| > 0 {
      SumBySortBy(s[1..], key, f);
      SumByInsert(s[0], SortBy(s[1..], key), key, f);
    }
  }

  /** A sum over two sequences laid end to end is the sum of their sums. */
  lemma {:induction false} SumByAppend<T>(a: seq<T>, b: seq<T>, f: T -> int)
    ensures SumBy(a + b, f) == SumBy(a, f) + SumBy(b, f)
    decreases |a|
  {
    if |a| == 0 {
      assert a + b == b;
    } else {
      assert (a + b)[1..] == a[1..] + b;
      SumByAppend(a[1..], b, f);
    }
  }
}
