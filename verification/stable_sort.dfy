/** `Array.prototype.sort` with a numeric comparator `(a, b) => key(a) - key(b)`.
    The language requires that sort to be stable, and a stable sort has exactly
    one possible result (StableSortIsUnique), so it is modelled by the simplest
    stable sort there is: insertion sort. */
module StableSort {
  import opened Seqs

  ghost predicate SortedBy<T>(s: seq<T>, key: T -> int) {
    forall i, j :: 0 <= i < j < |s| ==> key(s[i]) <= key(s[j])
  }

  /** The test "has key `k`", to filter one class of equal keys out of a sequence. */
  function KeyIs<T>(key: T -> int, k: int): T -> bool {
    x => key(x) == k
  }

  /** Inserts `x` in front of the first element whose key is not smaller than its
      own, so that `x` stays ahead of every element with the same key. */
  function InsertBy<T>(x: T, s: seq<T>, key: T -> int): (r: seq<T>)
    ensures |r| == |s| + 1 && (r[0] == x || (s != [] && r[0] == s[0]))
  {
    if s == [] || key(x) <= key(s[0]) then [x] + s
    else [s[0]] + InsertBy(x, s[1..], key)
  }

  /** Inserting adds `x` and nothing else. */
  lemma {:induction false} InsertByPermutes<T>(x: T, s: seq<T>, key: T -> int)
    ensures multiset(InsertBy(x, s, key)) == multiset(s) + multiset{x}
  {
    if s != [] && key(x) > key(s[0]) {
      InsertByPermutes(x, s[1..], key);
      assert s == [s[0]] + s[1..];
    }
  }

  /** Inserting into a sorted sequence keeps it sorted. */
  lemma {:induction false} InsertBySorted<T>(x: T, s: seq<T>, key: T -> int)
    requires SortedBy(s, key)
    ensures SortedBy(InsertBy(x, s, key), key)
  {
    if s != [] && key(x) > key(s[0]) {
      InsertBySorted(x, s[1..], key);
    }
  }

  /** Sorts `s` by ascending key. */
  function SortBy<T>(s: seq<T>, key: T -> int): (r: seq<T>)
    ensures multiset(r) == multiset(s)
    ensures SortedBy(r, key)
  {
    if s == [] then []
    else
      var t := SortBy(s[1..], key);
      InsertByPermutes(s[0], t, key);
      InsertBySorted(s[0], t, key);
      assert s == [s[0]] + s[1..];
      InsertBy(s[0], t, key)
  }

  /** Inserting an element into a sequence whose first part has smaller keys and
      whose rest has keys no smaller puts it between the two. */
  lemma {:induction false} InsertBetween<T>(x: T, a: seq<T>, b: seq<T>, key: T -> int)
    requires forall i :: 0 <= i < |a| ==> key(a[i]) < key(x)
    requires b == [] || key(x) <= key(b[0])
    ensures InsertBy(x, a + b, key) == a + [x] + b
  {
    if a != [] {
      assert (a + b)[0] == a[0] && (a + b)[1..] == a[1..] + b;
      InsertBetween(x, a[1..], b, key);
    }
  }

  /** An element that overtakes `y` does not change the filtered order when at
      most one of the two passes the test. */
  lemma FilterPastHead<T>(x: T, y: T, t: seq<T>, rest: seq<T>, p: T -> bool)
    requires !p(x) || !p(y)
    requires Filter(t, p) == (if p(x) then [x] else []) + Filter(rest, p)
    ensures Filter([y] + t, p) == (if p(x) then [x] else []) + Filter([y] + rest, p)
  {
    var hx: seq<T> := if p(x) then [x] else [];
    var hy: seq<T> := if p(y) then [y] else [];
    FilterCons(y, t, p);
    FilterCons(y, rest, p);
    assert hx == [] || hy == [];
    assert hy + (hx + Filter(rest, p)) == hx + (hy + Filter(rest, p));
  }

  /** Among the elements that pass a test of the key alone, an inserted element comes first. */
  lemma {:induction false} InsertByStable<T>(x: T, s: seq<T>, key: T -> int, p: T -> bool, k: int)
    requires forall y :: p(y) == (key(y) == k)
    ensures Filter(InsertBy(x, s, key), p) == (if p(x) then [x] else []) + Filter(s, p)
  {
    if s == [] || key(x) <= key(s[0]) {
      FilterCons(x, s, p);
    } else {
      InsertByStable(x, s[1..], key, p, k);
      assert !p(x) || !p(s[0]);
      FilterPastHead(x, s[0], InsertBy(x, s[1..], key), s[1..], p);
      assert s == [s[0]] + s[1..];
    }
  }

  /** Stability: the elements of any one key leave the sort in the order they came in. */
  lemma {:induction false} SortByStable<T>(s: seq<T>, key: T -> int, k: int)
    ensures Filter(SortBy(s, key), KeyIs(key, k)) == Filter(s, KeyIs(key, k))
  {
    if s != [] {
      SortByStable(s[1..], key, k);
      InsertByStable(s[0], SortBy(s[1..], key), key, KeyIs(key, k), k);
    }
  }

  /** The first element of a sorted sequence has the smallest key. */
  lemma SortedHeadIsMin<T>(r: seq<T>, key: T -> int, i: nat)
    requires SortedBy(r, key) && i < |r|
    ensures key(r[0]) <= key(r[i])
  {
  }

  /** Sequences with the same head and the same classes of equal keys have tails
      with the same classes. */
  lemma TailsAgree<T>(r1: seq<T>, r2: seq<T>, key: T -> int, k: int)
    requires r1 != [] && r2 != [] && r1[0] == r2[0]
    requires Filter(r1, KeyIs(key, k)) == Filter(r2, KeyIs(key, k))
    ensures Filter(r1[1..], KeyIs(key, k)) == Filter(r2[1..], KeyIs(key, k))
  {
    var p := KeyIs(key, k);
    var h: seq<T> := if p(r1[0]) then [r1[0]] else [];
    FilterCons(r1[0], r1[1..], p);
    FilterCons(r2[0], r2[1..], p);
    assert r1 == [r1[0]] + r1[1..] && r2 == [r2[0]] + r2[1..];
    assert Filter(r1[1..], p) == (h + Filter(r1[1..], p))[|h|..];
    assert Filter(r2[1..], p) == (h + Filter(r2[1..], p))[|h|..];
  }

  /** The head of a sorted sequence is the first element of its key class. */
  lemma HeadLeadsItsClass<T>(r: seq<T>, key: T -> int)
    requires r != []
    ensures |Filter(r, KeyIs(key, key(r[0])))| > 0
    ensures Filter(r, KeyIs(key, key(r[0])))[0] == r[0]
  {
    FilterCons(r[0], r[1..], KeyIs(key, key(r[0])));
    assert r == [r[0]] + r[1..];
  }

  /** Sorted sequences with the same classes of equal keys start alike: both are
      empty, or both start with the same element. */
  lemma SameHeads<T>(r1: seq<T>, r2: seq<T>, key: T -> int)
    requires SortedBy(r1, key) && SortedBy(r2, key)
    requires forall k :: Filter(r1, KeyIs(key, k)) == Filter(r2, KeyIs(key, k))
    ensures r1 == [] <==> r2 == []
    ensures r1 != [] ==> r1[0] == r2[0]
  {
    if r1 != [] {
      HeadLeadsItsClass(r1, key);
      var f1 := Filter(r1, KeyIs(key, key(r1[0])));
      assert f1 == Filter(r2, KeyIs(key, key(r1[0])));
      FilterMembers(r2, KeyIs(key, key(r1[0])));
      var i :| 0 <= i < |r2| && r2[i] == f1[0];
      SortedHeadIsMin(r2, key, i);
    }
    if r2 != [] {
      HeadLeadsItsClass(r2, key);
      var f2 := Filter(r2, KeyIs(key, key(r2[0])));
      assert f2 == Filter(r1, KeyIs(key, key(r2[0])));
      FilterMembers(r1, KeyIs(key, key(r2[0])));
      var j :| 0 <= j < |r1| && r1[j] == f2[0];
      SortedHeadIsMin(r1, key, j);
    }
  }

  /** Removing the same head from two sequences with the same classes of equal
      keys leaves tails with the same classes. */
  lemma AllTailsAgree<T>(r1: seq<T>, r2: seq<T>, key: T -> int)
    requires r1 != [] && r2 != [] && r1[0] == r2[0]
    requires forall k :: Filter(r1, KeyIs(key, k)) == Filter(r2, KeyIs(key, k))
    ensures forall k :: Filter(r1[1..], KeyIs(key, k)) == Filter(r2[1..], KeyIs(key, k))
  {
    forall k ensures Filter(r1[1..], KeyIs(key, k)) == Filter(r2[1..], KeyIs(key, k)) {
      TailsAgree(r1, r2, key, k);
    }
  }

  /** Two sequences sorted by the same key, in which every class of equal keys
      appears in the same order, are equal. */
  lemma {:induction false} SortedWithSameClassesEqual<T>(r1: seq<T>, r2: seq<T>, key: T -> int)
    requires SortedBy(r1, key) && SortedBy(r2, key)
    requires forall k :: Filter(r1, KeyIs(key, k)) == Filter(r2, KeyIs(key, k))
    ensures r1 == r2
    decreases |r1|
  {
    SameHeads(r1, r2, key);
    if r1 != [] {
      assert r1[1..] == r2[1..] by {
        AllTailsAgree(r1, r2, key);
        SortedWithSameClassesEqual(r1[1..], r2[1..], key);
      }
      assert r1 == [r1[0]] + r1[1..];
      assert r2 == [r2[0]] + r2[1..];
    }
  }

  /** Any sorted sequence that keeps every class of equal keys of `s` in its input
      order is the result of SortBy: whichever stable algorithm the JavaScript
      engine runs, it returns the same sequence as the model. */
  lemma StableSortIsUnique<T>(s: seq<T>, r: seq<T>, key: T -> int)
    requires SortedBy(r, key)
    requires forall k :: Filter(r, KeyIs(key, k)) == Filter(s, KeyIs(key, k))
    ensures r == SortBy(s, key)
  {
    forall k ensures Filter(r, KeyIs(key, k)) == Filter(SortBy(s, key), KeyIs(key, k)) {
      SortByStable(s, key, k);
    }
    SortedWithSameClassesEqual(r, SortBy(s, key), key);
  }
}
