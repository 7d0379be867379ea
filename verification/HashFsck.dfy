/** HASH_FSCK, the integrity check uthash runs after every addition and deletion in debug builds. */
module HashFsck {
  import opened Sums
  import opened BucketModel
  import opened UtHash

  ghost predicate Forward<V>(s: seq<Entry<V>>)
    reads s`next
  {
    forall i {:trigger s[i].next} :: 0 <= i < |s| ==> s[i].next == Nth(s, i + 1)
  }

  ghost predicate BackLinked<V>(s: seq<Entry<V>>)
    reads s`prev
  {
    forall i {:trigger s[i].prev} :: 0 <= i < |s| ==> s[i].prev == Nth(s, i - 1)
  }

  ghost predicate BackChained<V>(c: seq<Entry<V>>)
    reads c`hhPrev
  {
    forall i {:trigger c[i].hhPrev} :: 0 <= i < |c| ==> c[i].hhPrev == Nth(c, i - 1)
  }

  /** Walks the chain that starts at `first` along its forward links: counts it and compares every
      back link. */
  method WalkChain<V>(first: Entry?<V>, ghost c: seq<Entry<V>>) returns (ok: bool, count: nat)
    requires NextFrom(c, 0) && first == Nth(c, 0)
    ensures ok <==> BackChained(c)
    ensures ok ==> count == |c|
  {
    var thh, prev := first, null;
    count := 0;
    while thh != null
      invariant count <= |c| && thh == Nth(c, count) && prev == Nth(c, count - 1)
      invariant forall i {:trigger c[i].hhPrev} :: 0 <= i < count ==> c[i].hhPrev == Nth(c, i - 1)
      decreases |c| - count
    {
      if prev != thh.hhPrev {
        assert thh == c[count];
        return false, count;
      }
      count := count + 1;
      prev := thh;
      thh := thh.hhNext;
    }
    ok := true;
  }

  /** Walks the insertion list in the same way. */
  method WalkItems<V>(head: Entry?<V>, ghost s: seq<Entry<V>>) returns (ok: bool, count: nat)
    requires Forward(s) && head == Nth(s, 0)
    ensures ok <==> BackLinked(s)
    ensures ok ==> count == |s|
  {
    var thh, prev := head, null;
    count := 0;
    while thh != null
      invariant count <= |s| && thh == Nth(s, count) && prev == Nth(s, count - 1)
      invariant forall i {:trigger s[i].prev} :: 0 <= i < count ==> s[i].prev == Nth(s, i - 1)
      decreases |s| - count
    {
      if prev != thh.prev {
        assert thh == s[count];
        return false, count;
      }
      count := count + 1;
      prev := thh;
      thh := thh.next;
    }
    ok := true;
  }

  lemma SumPrefix(xs: seq<nat>, i: nat)
    requires i < |xs|
    ensures Sum(xs[..i + 1]) == Sum(xs[..i]) + xs[i]
  {
    assert xs[..i + 1] == xs[..i] + [xs[i]];
    SumConcat(xs[..i], [xs[i]]);
  }

  /** The lists that the forward links of a table, sound or not, trace out. */
  ghost predicate Traces<V>(t: Table<V>, items: seq<Entry<V>>, chains: seq<seq<Entry<V>>>)
    reads t, t.buckets, items`next, (set b, j | 0 <= b < |chains| && 0 <= j < |chains[b]| :: chains[b][j])`hhNext
  {
    && t.head == Nth(items, 0) && Forward(items)
    && t.buckets.Length == t.numBuckets == |chains|
    && forall b {:trigger t.buckets[b]} :: 0 <= b < |chains| ==>
         t.buckets[b].head == Nth(chains[b], 0) && NextFrom(chains[b], 0)
  }

  /** Bucket `b` has the right back links and the right count. */
  ghost predicate BucketSound<V>(t: Table<V>, chains: seq<seq<Entry<V>>>, b: nat)
    requires b < t.buckets.Length && b < |chains|
    reads t, t.buckets, chains[b]`hhPrev
  {
    BackChained(chains[b]) && t.buckets[b].count == |chains[b]|
  }

  /** HASH_FSCK passes exactly when every back link mirrors a forward link, every bucket count is
      the length of its chain, and both ways of counting give `num_items`. */
  method Fsck<V>(t: Table<V>, ghost items: seq<Entry<V>>, ghost chains: seq<seq<Entry<V>>>) returns (ok: bool)
    requires Traces(t, items, chains)
    ensures ok <==> (t.head == null ||
                     (&& (forall b :: 0 <= b < |chains| ==> BucketSound(t, chains, b))
                      && BackLinked(items)
                      && Sum(Lens(chains)) == t.numItems == |items|))
  {
    if t.head == null {
      return true;
    }
    ghost var lens := Lens(chains);
    var count := 0;
    var b := 0;
    while b < t.numBuckets
      invariant 0 <= b <= t.numBuckets && count == Sum(lens[..b])
      invariant forall a :: 0 <= a < b ==> BucketSound(t, chains, a)
    {
      var fine, n := WalkChain(t.buckets[b].head, chains[b]);
      SumPrefix(lens, b);
      if !fine || t.buckets[b].count != n {
        assert !BucketSound(t, chains, b);
        return false;
      }
      count := count + n;
      b := b + 1;
    }
    assert lens[..b] == lens;
    if count != t.numItems {
      return false;
    }
    var fine, n := WalkItems(t.head, items);
    ok := fine && n == t.numItems;
  }

  /** So it finds nothing wrong with any table the operations maintain. */
  method FsckPasses<V>(t: Table<V>) returns (ok: bool)
    requires t.Valid()
    ensures ok
  {
    if t.head == null {
      return true;
    }
    TracesItself(t);
    ok := Fsck(t, t.m.items, t.m.chains);
  }

  lemma TracesItself<V>(t: Table<V>)
    requires t.Valid() && t.head != null
    ensures Traces(t, t.m.items, t.m.chains)
  {
    forall b {:trigger t.buckets[b]} | 0 <= b < |t.m.chains|
      ensures t.buckets[b].head == Nth(t.m.chains[b], 0) && NextFrom(t.m.chains[b], 0)
    {
      assert Chained(t.m.chains[b]);
    }
  }
}
