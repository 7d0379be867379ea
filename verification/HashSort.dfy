/** HASH_SRT: Simon Tatham's list merge sort, rewiring the insertion-order links in place while the
    bucket chains stay as they are. */
module HashSort {
  import opened Sums
  import opened BucketModel
  import opened UtHash
  import opened MergeSort

  /** A list under construction: linked, except that its last `next` is not set yet. */
  ghost predicate Emitted<V>(out: seq<Entry<V>>)
    reads out`next, out`prev
  {
    && (forall k {:trigger out[k].next} :: 0 <= k < |out| - 1 ==> out[k].next == Nth(out, k + 1))
    && (forall k {:trigger out[k].prev} :: 0 <= k < |out| ==> out[k].prev == Nth(out, k - 1))
  }

  /** The part of the input list that still has its `next` links. */
  ghost predicate Pending<V>(s: seq<Entry<V>>, lo: nat, hi: nat)
    reads s`next
  {
    forall k {:trigger s[k].next} :: lo <= k < hi && k < |s| ==> s[k].next == Nth(s, k + 1)
  }

  ghost predicate Apart<V>(out: seq<Entry<V>>, s: seq<Entry<V>>, lo: nat, hi: nat) {
    forall u, k :: 0 <= u < |out| && lo <= k < hi && k < |s| ==> out[u] != s[k]
  }

  function Min(a: nat, b: nat): nat { if a <= b then a else b }

  /** Appends `e` to the list under construction. */
  method Emit<V>(e: Entry<V>, list: Entry?<V>, tail: Entry?<V>, ghost out: seq<Entry<V>>)
    returns (list': Entry<V>, tail': Entry<V>)
    requires Emitted(out) && NoDup(out) && e !in out
    requires list == Nth(out, 0) && tail == Nth(out, |out| - 1)
    modifies (if tail == null then {} else {tail})`next, e`prev
    ensures Emitted(out + [e]) && NoDup(out + [e])
    ensures list' == Nth(out + [e], 0) && tail' == e
  {
    if tail != null {
      tail.next := e;
      list' := list;
    } else {
      list' := e;
    }
    e.prev := tail;
    tail' := e;
  }

  /** Stepping `q` past the first run: at most `insize` elements from position `a`. */
  method Advance<V>(p: Entry<V>, insize: nat, ghost s: seq<Entry<V>>, ghost a: nat)
    returns (q: Entry?<V>, psize: nat)
    requires insize >= 1 && a < |s| && p == s[a] && Pending(s, a, |s|)
    ensures psize == Min(a + insize, |s|) - a && q == Nth(s, a + psize)
  {
    q, psize := p, 0;
    for i := 0 to insize
      invariant psize == i && a + i < |s| && q == s[a + i]
    {
      psize := psize + 1;
      q := q.next;
      if q == null {
        break;
      }
    }
  }

  /** What the merge of one pair of runs has left to do: `[i, mid)` and `[j, hi)` of `s`. */
  ghost predicate Merging<V>(s: seq<Entry<V>>, out: seq<Entry<V>>, dom: set<Entry<V>>, i: nat, mid: nat, j: nat)
    reads dom`next, dom`prev
  {
    && Within(s, dom) && Within(out, dom) && NoDup(s) && NoDup(out)
    && i <= mid <= j <= |s|
    && Emitted(out) && Pending(s, i, mid) && Pending(s, j, |s|)
    && Apart(out, s, i, mid) && Apart(out, s, j, |s|)
  }

  /** Taking the next element of the first run, or of the second. */
  method EmitFrom<V>(e: Entry<V>, list: Entry?<V>, tail: Entry?<V>, ghost s: seq<Entry<V>>, ghost out: seq<Entry<V>>,
                     ghost dom: set<Entry<V>>, ghost i: nat, ghost mid: nat, ghost j: nat, ghost first: bool)
    returns (list': Entry<V>, tail': Entry<V>)
    requires Merging(s, out, dom, i, mid, j)
    requires if first then i < mid && e == s[i] else j < |s| && e == s[j]
    requires list == Nth(out, 0) && tail == Nth(out, |out| - 1)
    modifies dom`next, dom`prev
    ensures if first then Merging(s, out + [e], dom, i + 1, mid, j) else Merging(s, out + [e], dom, i, mid, j + 1)
    ensures list' == Nth(out + [e], 0) && tail' == e
  {
    list', tail' := Emit(e, list, tail, out);
  }

  lemma MergeStep<T>(cmp: Cmp<T>, s: seq<T>, i: nat, mid: nat, j: nat, hi: nat)
    requires i <= mid <= j <= hi <= |s| && (i < mid || j < hi)
    ensures var m := Merge(cmp, s[i..mid], s[j..hi]);
            if i < mid && (j == hi || cmp(s[i], s[j]) <= 0) then m == [s[i]] + Merge(cmp, s[i + 1..mid], s[j..hi])
            else j < hi && m == [s[j]] + Merge(cmp, s[i..mid], s[j + 1..hi])
  {
    if i < mid {
      assert s[i..mid][1..] == s[i + 1..mid];
    }
    if j < hi {
      assert s[j..hi][1..] == s[j + 1..hi];
    }
    if i < mid && j == hi {
      assert s[i..mid] == [s[i]] + s[i + 1..mid];
    }
    if i == mid {
      assert s[j..hi] == [s[j]] + s[j + 1..hi];
    }
  }

  /** The choice of the next element: the first run wins ties. */
  method Choose<V>(cmp: Cmp<Entry<V>>, p0: Entry?<V>, q0: Entry?<V>, psize0: nat, qsize0: nat,
                   ghost s: seq<Entry<V>>, ghost i: nat, ghost mid: nat, ghost j: nat, ghost hi: nat)
    returns (e: Entry<V>, p: Entry?<V>, q: Entry?<V>, psize: nat, qsize: nat, ghost first: bool)
    requires i <= mid <= j <= hi <= |s| && (i < mid || j < hi) && Pending(s, i, mid) && Pending(s, j, |s|)
    requires psize0 == mid - i && qsize0 >= hi - j && (qsize0 == hi - j || hi == |s|)
    requires p0 == Nth(s, i) && q0 == Nth(s, j)
    ensures first == (i < mid && (j == hi || cmp(s[i], s[j]) <= 0))
    ensures first ==> e == s[i] && p == Nth(s, i + 1) && psize == psize0 - 1 && q == q0 && qsize == qsize0
    ensures !first ==> j < hi && e == s[j] && q == Nth(s, j + 1) && qsize == qsize0 - 1 && p == p0 && psize == psize0
  {
    p, q, psize, qsize := p0, q0, psize0, qsize0;
    first := i < mid && (j == hi || cmp(s[i], s[j]) <= 0);
    if psize == 0 {
      e := q;
      q := q.next;
      qsize := qsize - 1;
    } else if qsize == 0 || q == null {
      e := p;
      p := p.next;
      psize := psize - 1;
    } else if cmp(p, q) <= 0 {
      e := p;
      p := p.next;
      psize := psize - 1;
    } else {
      e := q;
      q := q.next;
      qsize := qsize - 1;
    }
  }

  /** The merge loop of HASH_SRT on the runs `[a, mid)` and `[mid, hi)`. */
  method MergeRuns<V>(cmp: Cmp<Entry<V>>, p0: Entry<V>, q0: Entry?<V>, psize0: nat, insize: nat,
                      list0: Entry?<V>, tail0: Entry?<V>, ghost s: seq<Entry<V>>, ghost out0: seq<Entry<V>>,
                      ghost dom: set<Entry<V>>, ghost a: nat, ghost mid: nat)
    returns (list: Entry?<V>, tail: Entry?<V>, q: Entry?<V>, ghost out: seq<Entry<V>>)
    requires a < mid <= |s| && psize0 == mid - a && p0 == s[a] && q0 == Nth(s, mid)
    requires Merging(s, out0, dom, a, mid, mid)
    requires list0 == Nth(out0, 0) && tail0 == Nth(out0, |out0| - 1)
    modifies dom`next, dom`prev
    ensures var hi := Min(mid + insize, |s|);
            && out == out0 + Merge(cmp, s[a..mid], s[mid..hi])
            && Merging(s, out, dom, mid, mid, hi) && q == Nth(s, hi)
    ensures list == Nth(out, 0) && tail == Nth(out, |out| - 1)
  {
    hide Merge, Merging;
    list, tail, q, out := list0, tail0, q0, out0;
    var p: Entry?<V>, psize, qsize := p0, psize0, insize;
    ghost var i, j, hi := a, mid, Min(mid + insize, |s|);
    while psize > 0 || (qsize > 0 && q != null)
      invariant a <= i <= mid <= j <= hi && psize == mid - i && qsize == insize - (j - mid)
      invariant p == Nth(s, i) && q == Nth(s, j)
      invariant Merging(s, out, dom, i, mid, j)
      invariant out + Merge(cmp, s[i..mid], s[j..hi]) == out0 + Merge(cmp, s[a..mid], s[mid..hi])
      invariant list == Nth(out, 0) && tail == Nth(out, |out| - 1)
      decreases psize + qsize
    {
      list, tail, p, q, psize, qsize, out, i, j :=
        MergeNext(cmp, list, tail, p, q, psize, qsize, s, out, dom, i, mid, j, hi);
    }
    assert s[i..mid] == [] && s[j..hi] == [];
    MergeNothing(cmp);
    assert out + [] == out;
  }

  lemma MergeNothing<T>(cmp: Cmp<T>)
    ensures Merge(cmp, [], []) == []
  {
  }

  /** One turn of that loop. */
  method MergeNext<V>(cmp: Cmp<Entry<V>>, list0: Entry?<V>, tail0: Entry?<V>, p0: Entry?<V>, q0: Entry?<V>,
                      psize0: nat, qsize0: nat, ghost s: seq<Entry<V>>, ghost out0: seq<Entry<V>>,
                      ghost dom: set<Entry<V>>, ghost i0: nat, ghost mid: nat, ghost j0: nat, ghost hi: nat)
    returns (list: Entry<V>, tail: Entry<V>, p: Entry?<V>, q: Entry?<V>, psize: nat, qsize: nat,
             ghost out: seq<Entry<V>>, ghost i: nat, ghost j: nat)
    requires i0 <= mid <= j0 <= hi <= |s| && (i0 < mid || j0 < hi)
    requires psize0 == mid - i0 && qsize0 >= hi - j0 && (qsize0 == hi - j0 || hi == |s|)
    requires p0 == Nth(s, i0) && q0 == Nth(s, j0) && Merging(s, out0, dom, i0, mid, j0)
    requires list0 == Nth(out0, 0) && tail0 == Nth(out0, |out0| - 1)
    modifies dom`next, dom`prev
    ensures i0 <= i <= mid <= j0 <= j <= hi && i + j == i0 + j0 + 1
    ensures psize == mid - i && qsize == qsize0 - (j - j0) && p == Nth(s, i) && q == Nth(s, j)
    ensures Merging(s, out, dom, i, mid, j)
    ensures out + Merge(cmp, s[i..mid], s[j..hi]) == out0 + Merge(cmp, s[i0..mid], s[j0..hi])
    ensures list == Nth(out, 0) && tail == Nth(out, |out| - 1)
  {
    hide Merge, Apart, Emitted, NoDup, Within;
    MergeStep(cmp, s, i0, mid, j0, hi);
    var e;
    ghost var first;
    e, p, q, psize, qsize, first := Choose(cmp, p0, q0, psize0, qsize0, s, i0, mid, j0, hi);
    list, tail := EmitFrom(e, list0, tail0, s, out0, dom, i0, mid, j0, first);
    i, j := if first then i0 + 1 else i0, if first then j0 else j0 + 1;
    out := out0 + [e];
  }

  lemma PassStep<T>(cmp: Cmp<T>, s: seq<T>, a: nat, k: nat)
    requires k >= 1 && a < |s|
    ensures var mid := Min(a + k, |s|);
            var hi := Min(mid + k, |s|);
            Pass(cmp, s[a..], k) == Merge(cmp, s[a..mid], s[mid..hi]) + Pass(cmp, s[hi..], k)
  {
    hide Pass, Merge, Take, Drop;
    NextRuns(s, a, k);
    PassUnfolds(cmp, s[a..], k);
  }

  lemma PassUnfolds<T>(cmp: Cmp<T>, s: seq<T>, k: nat)
    requires k >= 1 && s != []
    ensures Pass(cmp, s, k) == Merge(cmp, Take(s, k), Take(Drop(s, k), k)) + Pass(cmp, Drop(s, 2 * k), k)
  {
  }

  /** The runs of a pass at position `a`, and what follows them. */
  lemma NextRuns<T>(s: seq<T>, a: nat, k: nat)
    requires a < |s|
    ensures var mid := Min(a + k, |s|);
            var hi := Min(mid + k, |s|);
            Take(s[a..], k) == s[a..mid] && Take(Drop(s[a..], k), k) == s[mid..hi] && Drop(s[a..], 2 * k) == s[hi..]
  {
  }

  lemma PassDone<T>(cmp: Cmp<T>, s: seq<T>, a: nat, k: nat, out: seq<T>)
    requires k >= 1 && a == |s| && out + Pass(cmp, s[a..], k) == Pass(cmp, s, k)
    ensures out == Pass(cmp, s, k) && |out| == |s|
  {
    assert s[a..] == [] && out + [] == out;
  }

  lemma NoneEmitted<T>(cmp: Cmp<T>, s: seq<T>, k: nat)
    requires k >= 1
    ensures [] + Pass(cmp, s[0..], k) == Pass(cmp, s, k)
  {
    assert s[0..] == s;
  }

  /** The next two runs from position `a`, merged onto the output. */
  method MergeNextRuns<V>(cmp: Cmp<Entry<V>>, p0: Entry<V>, insize: nat, l0: Entry?<V>, t0: Entry?<V>,
                          ghost s: seq<Entry<V>>, ghost out0: seq<Entry<V>>, ghost dom: set<Entry<V>>, ghost a: nat)
    returns (l: Entry?<V>, t: Entry?<V>, p: Entry?<V>, ghost out: seq<Entry<V>>, ghost hi: nat)
    requires insize >= 1 && a < |s| && p0 == s[a] && Merging(s, out0, dom, a, a, a)
    requires l0 == Nth(out0, 0) && t0 == Nth(out0, |out0| - 1)
    modifies dom`next, dom`prev
    ensures hi == Min(Min(a + insize, |s|) + insize, |s|) && p == Nth(s, hi)
    ensures Merging(s, out, dom, hi, hi, hi)
    ensures out + Pass(cmp, s[hi..], insize) == out0 + Pass(cmp, s[a..], insize)
    ensures l == Nth(out, 0) && t == Nth(out, |out| - 1)
  {
    hide Merge, Pass, Apart, NoDup, Within, Emitted;
    PassStep(cmp, s, a, insize);
    var q, psize := Advance(p0, insize, s, a);
    ghost var mid := a + psize;
    hi := Min(mid + insize, |s|);
    SplitRun(s, out0, dom, a, mid);
    Associate(out0, Merge(cmp, s[a..mid], s[mid..hi]), Pass(cmp, s[hi..], insize));
    l, t, p, out := MergeRuns(cmp, p0, q, psize, insize, l0, t0, s, out0, dom, a, mid);
    SkipRun(s, out, dom, mid, hi);
  }

  /** The merge counter of a pass that has reached position `a` of `n`. */
  ghost predicate MergesSoFar(nmerges: nat, a: nat, insize: nat, n: nat) {
    && (nmerges == 0 ==> a == 0)
    && (nmerges == 1 ==> a == Min(2 * insize, n))
    && (nmerges > 1 ==> n > 2 * insize)
  }

  lemma NoMerges(insize: nat, n: nat)
    ensures MergesSoFar(0, 0, insize, n)
  {
  }

  lemma OneMoreMerge(nmerges: nat, a: nat, insize: nat, n: nat)
    requires MergesSoFar(nmerges, a, insize, n) && a < n && insize >= 1
    ensures a < Min(Min(a + insize, n) + insize, n) <= n
    ensures MergesSoFar(nmerges + 1, Min(Min(a + insize, n) + insize, n), insize, n)
  {
  }

  lemma MergesInAll(nmerges: nat, insize: nat, n: nat)
    requires MergesSoFar(nmerges, n, insize, n) && n >= 1
    ensures nmerges <= 1 <==> n <= 2 * insize
  {
  }

  /** One turn of the outer loop of HASH_SRT. */
  method OnePass<V>(cmp: Cmp<Entry<V>>, head: Entry<V>, insize: nat, ghost s: seq<Entry<V>>, ghost dom: set<Entry<V>>)
    returns (list: Entry<V>, tail: Entry<V>, nmerges: nat)
    requires insize >= 1 && s != [] && head == s[0] && NoDup(s) && Within(s, dom) && Pending(s, 0, |s|)
    modifies dom`next, dom`prev
    ensures var out := Pass(cmp, s, insize);
            list == out[0] && tail == out[|out| - 1] && Listed(out) && NoDup(out) && Within(out, dom)
    ensures nmerges <= 1 <==> |s| <= 2 * insize
  {
    hide Merge, Pass, Merging, Apart, NoDup, Within, Pending, Emitted, Listed, MergesSoFar;
    var p: Entry?<V>, l: Entry?<V>, t: Entry?<V> := head, null, null;
    nmerges := 0;
    ghost var a, out := 0, [];
    NoMerges(insize, |s|);
    StartMerging(s, dom);
    NoneEmitted(cmp, s, insize);
    while p != null
      invariant 0 <= a <= |s| && p == Nth(s, a)
      invariant Merging(s, out, dom, a, a, a)
      invariant out + Pass(cmp, s[a..], insize) == Pass(cmp, s, insize)
      invariant l == Nth(out, 0) && t == Nth(out, |out| - 1)
      invariant MergesSoFar(nmerges, a, insize, |s|)
      decreases |s| - a
    {
      OneMoreMerge(nmerges, a, insize, |s|);
      nmerges := nmerges + 1;
      l, t, p, out, a := MergeNextRuns(cmp, p, insize, l, t, s, out, dom, a);
    }
    PassDone(cmp, s, a, insize, out);
    MergesInAll(nmerges, insize, |s|);
    list, tail := Terminate(l, t, s, out, dom);
  }

  method Terminate<V>(l: Entry?<V>, t: Entry?<V>, ghost s: seq<Entry<V>>, ghost out: seq<Entry<V>>, ghost dom: set<Entry<V>>)
    returns (list: Entry<V>, tail: Entry<V>)
    requires out != [] && Merging(s, out, dom, |s|, |s|, |s|)
    requires l == out[0] && t == out[|out| - 1]
    modifies dom`next
    ensures Listed(out) && NoDup(out) && Within(out, dom) && list == out[0] && tail == out[|out| - 1]
  {
    t.next := null;
    list, tail := l, t;
  }

  lemma StartMerging<V>(s: seq<Entry<V>>, dom: set<Entry<V>>)
    requires NoDup(s) && Within(s, dom) && Pending(s, 0, |s|)
    ensures Merging(s, [], dom, 0, 0, 0)
  {
  }

  lemma SplitRun<V>(s: seq<Entry<V>>, out: seq<Entry<V>>, dom: set<Entry<V>>, a: nat, mid: nat)
    requires Merging(s, out, dom, a, a, a) && a <= mid <= |s|
    ensures Merging(s, out, dom, a, mid, mid)
  {
  }

  lemma SkipRun<V>(s: seq<Entry<V>>, out: seq<Entry<V>>, dom: set<Entry<V>>, mid: nat, hi: nat)
    requires Merging(s, out, dom, mid, mid, hi)
    ensures Merging(s, out, dom, hi, hi, hi)
  {
  }

  /** The outer loop of HASH_SRT on the links alone. */
  method SortLinks<V>(cmp: Cmp<Entry<V>>, head: Entry<V>, ghost items: seq<Entry<V>>, ghost dom: set<Entry<V>>)
    returns (list: Entry<V>, tail: Entry<V>)
    requires items != [] && head == items[0] && NoDup(items) && Within(items, dom) && Listed(items)
    modifies dom`next, dom`prev
    ensures var out := Sort(cmp, items, 1);
            list == out[0] && tail == out[|out| - 1] && Listed(out) && NoDup(out) && Within(out, dom)
  {
    hide Pass, NoDup, Within;
    var insize := 1;
    var looping := true;
    list, tail := head, head;
    ghost var s := items;
    while looping
      invariant insize >= 1 && s != [] && NoDup(s) && Within(s, dom) && Listed(s) && list == s[0]
      invariant looping ==> Sort(cmp, s, insize) == Sort(cmp, items, 1)
      invariant !looping ==> s == Sort(cmp, items, 1) && tail == s[|s| - 1]
      decreases looping, if 2 * insize < |s| then |s| - 2 * insize else 0
    {
      var nmerges;
      list, tail, nmerges := OnePass(cmp, list, insize, s, dom);
      s := Pass(cmp, s, insize);
      if nmerges <= 1 {
        looping := false;
      }
      insize := insize * 2;
    }
  }

  /** A permuted insertion list leaves the table as well formed as it was. */
  lemma ResortedWellFormed<V>(fcn: HashFcn, s: State<V>, items: seq<Entry<V>>)
    requires WellFormed(fcn, s) && s.Table? && NoDup(items) && multiset(items) == multiset(s.items)
    ensures WellFormed(fcn, s.(items := items))
    ensures |items| == |s.items|
  {
    assert |multiset(items)| == |items| && |multiset(s.items)| == |s.items|;
    SameMembers(items, s.items);
  }

  lemma ResortedKeepsFields<V>(fcn: HashFcn, items0: seq<Entry<V>>, items: seq<Entry<V>>, chains: seq<seq<Entry<V>>>)
    requires multiset(items) == multiset(items0) && Hashed(fcn, items0) && AllChained(items0, chains)
    ensures Hashed(fcn, items) && AllChained(items, chains)
  {
    SameMembers(items, items0);
    forall i | 0 <= i < |items| ensures items[i].hashv == fcn(items[i].key) {
      assert items[i] in items0;
    }
  }

  lemma SameMembers<T>(a: seq<T>, b: seq<T>)
    requires multiset(a) == multiset(b)
    ensures forall x :: x in a <==> x in b
  {
    forall x ensures x in a <==> x in b {
      assert x in a <==> x in multiset(a);
      assert x in b <==> x in multiset(b);
    }
  }

  /** HASH_SRT on a table that exists. */
  method SortExisting<V>(t: Table<V>, cmp: Cmp<Entry<V>>, ghost dom: set<Entry<V>>)
    requires t.Valid() && t.m.Table? && dom == (set e | e in t.m.items) && Within(t.m.items, dom)
    requires multiset(Sort(cmp, t.m.items, 1)) == multiset(t.m.items)
    modifies t, dom`next, dom`prev
    ensures t.Valid() && t.m == old(t.m).(items := Sort(cmp, old(t.m).items, 1))
  {
    hide *;
    ghost var items := Sort(cmp, t.m.items, 1);
    t.UsesTable();
    var list, tail := SortLinks(cmp, t.head, t.m.items, dom);
    ResortedWellFormed(t.fcn, t.m, items);
    ResortedKeepsFields(t.fcn, t.m.items, items, t.m.chains);
    t.Relink(list, tail, items);
  }

  /** HASH_SRT. The items end up in stable sorted order and nothing else changes: not the chains,
      so not the outcome of any lookup. */
  method SortTable<V>(t: Table<V>, cmp: Cmp<Entry<V>>)
    requires t.Valid()
    requires Preorder(cmp, set e | e in Items(t.m))
    modifies t, Items(t.m)
    ensures t.Valid()
    ensures t.m == if old(t.m).NoTable? then NoTable else old(t.m).(items := Sort(cmp, old(t.m).items, 1))
    ensures Sorted(cmp, Items(t.m)) && multiset(Items(t.m)) == multiset(old(Items(t.m)))
    ensures forall x :: x in old(Items(t.m)) ==> Ties(cmp, x, Items(t.m)) == Ties(cmp, x, old(Items(t.m)))
    ensures forall key :: Find(t.fcn, t.m, key) == Find(t.fcn, old(t.m), key)
  {
    hide WellFormed, Sort, Sorted, Preorder, Ties;
    ghost var items := Items(t.m);
    ghost var dom := set e | e in items;
    SortIsStableSort(cmp, dom, items);
    if t.head != null {
      SortExisting(t, cmp, dom);
    } else {
      SortEmpty(cmp);
    }
  }

  lemma SortEmpty<T>(cmp: Cmp<T>)
    ensures Sort(cmp, [], 1) == []
  {
  }
}
