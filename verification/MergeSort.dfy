/** The bottom-up merge sort behind HASH_SRT, on sequences: what one pass and the whole sort
    compute, and that the result is a stable sorted permutation. */
module MergeSort {
  import opened Sums

  type Cmp<!T> = (T, T) -> int

  function Merge<T>(cmp: Cmp<T>, a: seq<T>, b: seq<T>): (r: seq<T>)
    ensures |r| == |a| + |b|
  {
    if a == [] then b
    else if b == [] then a
    else if cmp(a[0], b[0]) <= 0 then [a[0]] + Merge(cmp, a[1..], b)
    else [b[0]] + Merge(cmp, a, b[1..])
  }

  function Take<T>(s: seq<T>, k: nat): seq<T> { if k <= |s| then s[..k] else s }
  function Drop<T>(s: seq<T>, k: nat): seq<T> { if k <= |s| then s[k..] else [] }

  /** One pass: neighbouring runs of length `k` are merged pairwise. */
  function Pass<T>(cmp: Cmp<T>, s: seq<T>, k: nat): (r: seq<T>)
    requires k >= 1
    ensures |r| == |s|
    decreases |s|
  {
    if s == [] then []
    else Merge(cmp, Take(s, k), Take(Drop(s, k), k)) + Pass(cmp, Drop(s, 2 * k), k)
  }

  /** Passes with doubling run length until one merge covers the list. */
  function Sort<T>(cmp: Cmp<T>, s: seq<T>, k: nat): (r: seq<T>)
    requires k >= 1
    ensures |r| == |s|
    decreases if 2 * k < |s| then |s| - 2 * k else 0
  {
    if |s| <= 2 * k then Pass(cmp, s, k) else Sort(cmp, Pass(cmp, s, k), 2 * k)
  }

  // ----- order ------------------------------------------------------------------------------------

  /** `cmp(x, y) <= 0` is total and transitive on the elements of `dom`. */
  ghost predicate Preorder<T>(cmp: Cmp<T>, dom: set<T>) {
    && (forall x, y :: x in dom && y in dom ==> cmp(x, y) <= 0 || cmp(y, x) <= 0)
    && (forall x, y, z :: x in dom && y in dom && z in dom && cmp(x, y) <= 0 && cmp(y, z) <= 0 ==> cmp(x, z) <= 0)
  }

  ghost predicate Within<T>(s: seq<T>, dom: set<T>) {
    forall i :: 0 <= i < |s| ==> s[i] in dom
  }

  ghost predicate Sorted<T>(cmp: Cmp<T>, s: seq<T>) {
    forall i, j :: 0 <= i < j < |s| ==> cmp(s[i], s[j]) <= 0
  }

  /** Every aligned run of `k` elements is sorted. */
  ghost predicate RunsSorted<T>(cmp: Cmp<T>, s: seq<T>, k: nat)
    requires k >= 1
    decreases |s|
  {
    s == [] || (Sorted(cmp, Take(s, k)) && RunsSorted(cmp, Drop(s, k), k))
  }

  /** The elements of `s` that compare equal to `x`, in order. */
  function Ties<T>(cmp: Cmp<T>, x: T, s: seq<T>): seq<T> {
    if s == [] then [] else Tied(cmp, x, s[0]) + Ties(cmp, x, s[1..])
  }

  function Tied<T>(cmp: Cmp<T>, x: T, y: T): seq<T> {
    if cmp(x, y) <= 0 && cmp(y, x) <= 0 then [y] else []
  }

  lemma {:induction false} TiesConcat<T>(cmp: Cmp<T>, x: T, a: seq<T>, b: seq<T>)
    ensures Ties(cmp, x, a + b) == Ties(cmp, x, a) + Ties(cmp, x, b)
  {
    if a == [] {
      assert a + b == b;
    } else {
      hide Tied;
      TiesConcat(cmp, x, a[1..], b);
      assert (a + b)[1..] == a[1..] + b;
      Associate(Tied(cmp, x, a[0]), Ties(cmp, x, a[1..]), Ties(cmp, x, b));
    }
  }

  lemma TiesOfThree<T>(cmp: Cmp<T>, x: T, a: seq<T>, b: seq<T>, c: seq<T>)
    ensures Ties(cmp, x, a + (b + c)) == Ties(cmp, x, a) + Ties(cmp, x, b) + Ties(cmp, x, c)
  {
    TiesConcat(cmp, x, b, c);
    TiesConcat(cmp, x, a, b + c);
  }

  lemma {:induction false} NoTies<T>(cmp: Cmp<T>, x: T, s: seq<T>)
    requires forall i :: 0 <= i < |s| ==> !(cmp(x, s[i]) <= 0 && cmp(s[i], x) <= 0)
    ensures Ties(cmp, x, s) == []
  {
    if s != [] {
      NoTies(cmp, x, s[1..]);
    }
  }

  // ----- merging ----------------------------------------------------------------------------------

  lemma {:induction false} MergePermutes<T>(cmp: Cmp<T>, a: seq<T>, b: seq<T>)
    ensures multiset(Merge(cmp, a, b)) == multiset(a) + multiset(b)
  {
    if a != [] && b != [] {
      assert a == [a[0]] + a[1..] && b == [b[0]] + b[1..];
      if cmp(a[0], b[0]) <= 0 {
        MergePermutes(cmp, a[1..], b);
      } else {
        MergePermutes(cmp, a, b[1..]);
      }
    }
  }

  /** A lower bound of both inputs is a lower bound of the merge. */
  lemma {:induction false} MergeBound<T>(cmp: Cmp<T>, x: T, a: seq<T>, b: seq<T>)
    requires forall i :: 0 <= i < |a| ==> cmp(x, a[i]) <= 0
    requires forall i :: 0 <= i < |b| ==> cmp(x, b[i]) <= 0
    ensures forall i :: 0 <= i < |a| + |b| ==> cmp(x, Merge(cmp, a, b)[i]) <= 0
  {
    if a != [] && b != [] {
      if cmp(a[0], b[0]) <= 0 {
        MergeBound(cmp, x, a[1..], b);
      } else {
        MergeBound(cmp, x, a, b[1..]);
      }
    }
  }

  lemma {:induction false} MergeSorted<T>(cmp: Cmp<T>, dom: set<T>, a: seq<T>, b: seq<T>)
    requires Preorder(cmp, dom) && Within(a, dom) && Within(b, dom)
    requires Sorted(cmp, a) && Sorted(cmp, b)
    ensures Sorted(cmp, Merge(cmp, a, b))
  {
    hide Preorder;
    if a != [] && b != [] {
      if cmp(a[0], b[0]) <= 0 {
        BelowAll(cmp, dom, a[0], b);
        MergeSorted(cmp, dom, a[1..], b);
        MergeBound(cmp, a[0], a[1..], b);
      } else {
        Comparable(cmp, dom, a[0], b[0]);
        BelowAll(cmp, dom, b[0], a);
        MergeSorted(cmp, dom, a, b[1..]);
        MergeBound(cmp, b[0], a, b[1..]);
      }
    }
  }

  lemma Comparable<T>(cmp: Cmp<T>, dom: set<T>, x: T, y: T)
    requires Preorder(cmp, dom) && x in dom && y in dom
    ensures cmp(x, y) <= 0 || cmp(y, x) <= 0
  {
  }

  /** What is not after the first element of a sorted run is not after any. */
  lemma BelowAll<T>(cmp: Cmp<T>, dom: set<T>, x: T, s: seq<T>)
    requires Preorder(cmp, dom) && Within(s, dom) && x in dom && Sorted(cmp, s)
    requires s != [] && cmp(x, s[0]) <= 0
    ensures forall i :: 0 <= i < |s| ==> cmp(x, s[i]) <= 0
  {
    assert forall i :: 0 < i < |s| ==> cmp(s[0], s[i]) <= 0;
  }

  lemma NoneBelow<T>(cmp: Cmp<T>, dom: set<T>, x: T, a: seq<T>, y: T)
    requires Preorder(cmp, dom) && Within(a, dom) && x in dom && y in dom && Sorted(cmp, a)
    requires a != [] && cmp(a[0], y) > 0 && cmp(x, y) <= 0
    ensures forall i :: 0 <= i < |a| ==> cmp(a[i], x) > 0
  {
    assert cmp(a[0], a[0]) <= 0;
    assert forall i :: 0 <= i < |a| ==> cmp(a[0], a[i]) <= 0;
  }

  /** Equal elements of the first run come before those of the second. */
  lemma {:induction false} MergeStable<T>(cmp: Cmp<T>, dom: set<T>, x: T, a: seq<T>, b: seq<T>)
    requires Preorder(cmp, dom) && Within(a, dom) && Within(b, dom) && x in dom
    requires Sorted(cmp, a)
    ensures Ties(cmp, x, Merge(cmp, a, b)) == Ties(cmp, x, a) + Ties(cmp, x, b)
  {
    hide Preorder;
    if a == [] || b == [] {
    } else {
      var r := Merge(cmp, a, b);
      if cmp(a[0], b[0]) <= 0 {
        MergeStable(cmp, dom, x, a[1..], b);
        assert r[1..] == Merge(cmp, a[1..], b);
      } else {
        MergeStable(cmp, dom, x, a, b[1..]);
        assert r[1..] == Merge(cmp, a, b[1..]);
        if cmp(x, b[0]) <= 0 && cmp(b[0], x) <= 0 {
          NoneBelow(cmp, dom, x, a, b[0]);
          NoTies(cmp, x, a);
        }
      }
    }
  }

  // ----- passes -----------------------------------------------------------------------------------

  lemma TakeDrop<T>(s: seq<T>, k: nat)
    ensures s == Take(s, k) + Drop(s, k)
    ensures Drop(Drop(s, k), k) == Drop(s, 2 * k)
  {
  }

  lemma {:induction false} PassPermutes<T>(cmp: Cmp<T>, s: seq<T>, k: nat)
    requires k >= 1
    ensures multiset(Pass(cmp, s, k)) == multiset(s)
    decreases |s|
  {
    if s != [] {
      var a, b, rest := Take(s, k), Take(Drop(s, k), k), Drop(s, 2 * k);
      MergePermutes(cmp, a, b);
      PassPermutes(cmp, rest, k);
      TakeDrop(s, k);
      TakeDrop(Drop(s, k), k);
      assert s == a + (b + rest);
      assert multiset(s) == multiset(a) + multiset(b) + multiset(rest);
    }
  }

  lemma {:induction false} PassSorts<T>(cmp: Cmp<T>, dom: set<T>, s: seq<T>, k: nat)
    requires k >= 1 && Preorder(cmp, dom) && Within(s, dom) && RunsSorted(cmp, s, k)
    ensures RunsSorted(cmp, Pass(cmp, s, k), 2 * k)
    decreases |s|
  {
    if s != [] {
      var a, b, rest := Take(s, k), Take(Drop(s, k), k), Drop(s, 2 * k);
      TakeDrop(s, k);
      var ab := Merge(cmp, a, b);
      MergeSorted(cmp, dom, a, b);
      PassSorts(cmp, dom, rest, k);
      var r := Pass(cmp, s, k);
      assert Take(r, 2 * k) == ab && Drop(r, 2 * k) == Pass(cmp, rest, k);
    }
  }

  lemma {:induction false} PassStable<T>(cmp: Cmp<T>, dom: set<T>, x: T, s: seq<T>, k: nat)
    requires k >= 1 && Preorder(cmp, dom) && Within(s, dom) && x in dom && RunsSorted(cmp, s, k)
    ensures Ties(cmp, x, Pass(cmp, s, k)) == Ties(cmp, x, s)
    decreases |s|
  {
    if s != [] {
      var a, b, rest := Take(s, k), Take(Drop(s, k), k), Drop(s, 2 * k);
      TakeDrop(s, k);
      TakeDrop(Drop(s, k), k);
      MergeStable(cmp, dom, x, a, b);
      assert RunsSorted(cmp, rest, k);
      PassStable(cmp, dom, x, rest, k);
      TiesConcat(cmp, x, Merge(cmp, a, b), Pass(cmp, rest, k));
      TiesOfThree(cmp, x, a, b, rest);
      assert s == a + (b + rest);
    }
  }

  lemma {:induction false} SingletonRuns<T>(cmp: Cmp<T>, s: seq<T>)
    ensures RunsSorted(cmp, s, 1)
  {
    if s != [] {
      SingletonRuns(cmp, Drop(s, 1));
    }
  }

  /** One pass doubles the sorted runs and keeps elements and ties. */
  lemma OnePass<T>(cmp: Cmp<T>, dom: set<T>, s: seq<T>, k: nat)
    requires k >= 1 && Preorder(cmp, dom) && Within(s, dom) && RunsSorted(cmp, s, k)
    ensures var p := Pass(cmp, s, k);
            && multiset(p) == multiset(s) && Within(p, dom) && RunsSorted(cmp, p, 2 * k)
            && forall x :: x in dom ==> Ties(cmp, x, p) == Ties(cmp, x, s)
  {
    hide Preorder, Pass, RunsSorted, Ties;
    var p := Pass(cmp, s, k);
    PassPermutes(cmp, s, k);
    PassSorts(cmp, dom, s, k);
    forall x | x in dom ensures Ties(cmp, x, p) == Ties(cmp, x, s) {
      PassStable(cmp, dom, x, s, k);
    }
    forall i | 0 <= i < |p| ensures p[i] in dom {
      assert p[i] in multiset(s);
    }
  }

  lemma SingleRun<T>(cmp: Cmp<T>, s: seq<T>, k: nat)
    requires k >= 1 && |s| <= k && RunsSorted(cmp, s, k)
    ensures Sorted(cmp, s)
  {
    assert Take(s, k) == s;
  }

  /** Started on sorted runs, the sort ends with a sorted permutation in which elements that
      compare equal keep their order. */
  lemma {:induction false} SortFromRuns<T>(cmp: Cmp<T>, dom: set<T>, s: seq<T>, k: nat)
    requires k >= 1 && Preorder(cmp, dom) && Within(s, dom) && RunsSorted(cmp, s, k)
    ensures Sorted(cmp, Sort(cmp, s, k))
    ensures multiset(Sort(cmp, s, k)) == multiset(s)
    ensures forall x :: x in dom ==> Ties(cmp, x, Sort(cmp, s, k)) == Ties(cmp, x, s)
    decreases if 2 * k < |s| then |s| - 2 * k else 0
  {
    hide Preorder, Within, Sorted, Pass, RunsSorted, Ties;
    var p := Pass(cmp, s, k);
    OnePass(cmp, dom, s, k);
    if |s| <= 2 * k {
      SingleRun(cmp, p, 2 * k);
    } else {
      SortFromRuns(cmp, dom, p, 2 * k);
    }
  }

  lemma SortIsStableSort<T>(cmp: Cmp<T>, dom: set<T>, s: seq<T>)
    requires Preorder(cmp, dom) && Within(s, dom)
    ensures Sorted(cmp, Sort(cmp, s, 1))
    ensures multiset(Sort(cmp, s, 1)) == multiset(s)
    ensures forall x :: x in dom ==> Ties(cmp, x, Sort(cmp, s, 1)) == Ties(cmp, x, s)
  {
    SingletonRuns(cmp, s);
    SortFromRuns(cmp, dom, s, 1);
  }
}
