/** The uthash macros on the heap: every element sits in the doubly linked insertion list and in
    one doubly linked bucket chain. Each method is proved to have the effect `BucketModel` gives it
    and to keep the two linked structures consistent. */
module UtHash {
  import opened Bits
  import opened Sums
  import opened BucketModel
  import opened Rethreading
  import GrowthPolicy

  datatype Bucket<V> = Bucket(head: Entry?<V>, count: nat, expandMult: nat)

  function Nth<V>(s: seq<Entry<V>>, i: int): (e: Entry?<V>) {
    if 0 <= i < |s| then s[i] else null
  }

  ghost predicate Listed<V>(s: seq<Entry<V>>)
    reads s`next, s`prev
  {
    && (forall i {:trigger s[i].next} :: 0 <= i < |s| ==> s[i].next == Nth(s, i + 1))
    && (forall i {:trigger s[i].prev} :: 0 <= i < |s| ==> s[i].prev == Nth(s, i - 1))
  }

  ghost predicate Chained<V>(c: seq<Entry<V>>)
    reads c`hhNext, c`hhPrev
  {
    && (forall i {:trigger c[i].hhNext} :: 0 <= i < |c| ==> c[i].hhNext == Nth(c, i + 1))
    && (forall i {:trigger c[i].hhPrev} :: 0 <= i < |c| ==> c[i].hhPrev == Nth(c, i - 1))
  }

  /** The forward links of a chain from position `j` on. */
  ghost predicate NextFrom<V>(c: seq<Entry<V>>, j: nat)
    reads c`hhNext
  {
    forall i {:trigger c[i].hhNext} :: j <= i < |c| ==> c[i].hhNext == Nth(c, i + 1)
  }

  ghost predicate Hashed<V>(fcn: HashFcn, s: seq<Entry<V>>)
    reads s`hashv
  {
    forall i {:trigger s[i].hashv} :: 0 <= i < |s| ==> s[i].hashv == fcn(s[i].key)
  }

  ghost predicate AllChained<V>(items: seq<Entry<V>>, chains: seq<seq<Entry<V>>>)
    reads items`hhNext, items`hhPrev
  {
    && (forall b, j :: 0 <= b < |chains| && 0 <= j < |chains[b]| ==> chains[b][j] in items)
    && forall b :: 0 <= b < |chains| ==> Chained(chains[b])
  }

  /** What an addition may take for granted about the table, and owes to it. */
  lemma PushFacts<V>(fcn: HashFcn, s: State<V>, e: Entry<V>)
    requires WellFormed(fcn, s) && e !in Items(s)
    ensures var base := if s.NoTable? then FreshTable() else s;
            && Shaped(base) && Placed(fcn, base.chains) && |base.chains| == Pow2(base.lb)
            && NoDup(base.items) && e !in base.items
            && WellFormed(fcn, BucketModel.Push(fcn, base, e))
  {
    var base := if s.NoTable? then FreshTable() else s;
    if s.NoTable? {
      FreshTableSum<V>();
    }
    PushWellFormed(fcn, base, e);
    PartitionPlaces(fcn, base.items, base.chains);
  }

  lemma ExpandIs<V>(fcn: HashFcn, s: State<V>)
    requires Shaped(s)
    ensures var r := Expand(fcn, s);
            && r.Table? && r.items == s.items && r.chains == SplitChains(fcn, s.chains)
            && r.ideal == IdealChainMaxlen(|s.items|, s.lb) && r.mults == Mults(r.chains, r.ideal)
            && r.nonideal == Sum(Excesses(r.chains, r.ideal))
  {
  }

  lemma DeleteFacts<V>(fcn: HashFcn, s: State<V>, i: nat)
    requires WellFormed(fcn, s) && i < |Items(s)|
    ensures Shaped(s) && NoDup(s.items) && |s.chains| == Pow2(s.lb) && Placed(fcn, s.chains)
    ensures s.items[i] in s.chains[Slot(fcn, s.items[i], |s.chains|)]
    ensures WellFormed(fcn, BucketModel.Delete(fcn, s, i))
    ensures Items(BucketModel.Delete(fcn, s, i)) == Without(s.items, i)
  {
    DeleteWellFormed(fcn, s, i);
    PartitionPlaces(fcn, s.items, s.chains);
  }

  ghost predicate BucketsHold<V>(buckets: array<Bucket<V>>, chains: seq<seq<Entry<V>>>, mults: seq<nat>)
    reads buckets
  {
    && buckets.Length == |chains| == |mults|
    && forall b {:trigger buckets[b]} :: 0 <= b < buckets.Length ==>
         buckets[b] == Bucket(Nth(chains[b], 0), |chains[b]|, mults[b])
  }

  /** The `UT_hash_table` together with the client's head pointer. The table exists exactly while
      `head` is not null; its fields mean nothing otherwise. */
  class Table<V> {
    const fcn: HashFcn
    var head: Entry?<V>
    var tail: Entry?<V>
    var buckets: array<Bucket<V>>
    var numBuckets: nat
    var log2NumBuckets: nat
    var numItems: nat
    var idealChainMaxlen: nat
    var nonidealItems: nat
    var ineffExpands: nat
    var noexpand: bool
    ghost var m: State<V>

    ghost predicate Valid()
      reads this, buckets, Items(m)
    {
      && WellFormed(fcn, m)
      && (head == null <==> m.NoTable?)
      && (m.Table? ==>
            && AppOrderOk(m.items) && FieldsOk(m)
            && BucketsHold(buckets, m.chains, m.mults) && AllChained(m.items, m.chains))
    }

    ghost predicate AppOrderOk(items: seq<Entry<V>>)
      reads this`head, this`tail, items`next, items`prev, items`hashv
    {
      && head == Nth(items, 0)
      && tail == Nth(items, |items| - 1)
      && Listed(items)
      && Hashed(fcn, items)
    }

    ghost predicate FieldsOk(s: State<V>)
      requires s.Table?
      reads this
    {
      && numBuckets == |s.chains|
      && log2NumBuckets == s.lb
      && numItems == |s.items|
      && idealChainMaxlen == s.ideal
      && nonidealItems == s.nonideal
      && ineffExpands == s.ineff
      && noexpand == s.noexpand
    }

    constructor (fcn: HashFcn)
      ensures Valid() && m == NoTable && this.fcn == fcn && fresh(buckets)
    {
      this.fcn := fcn;
      head, tail, m := null, null, NoTable;
      buckets := new Bucket<V>[0](_ => Bucket(null, 0, 0));
    }

    /** HASH_MAKE_TABLE for the first element. */
    method MakeTable(e: Entry<V>)
      modifies this
      ensures tail == e && head == old(head) && fresh(buckets)
      ensures m == FreshTable<V>() && FieldsOk(m)
      ensures BucketsHold(buckets, m.chains, m.mults) && AllChained(m.items, m.chains)
    {
      hide Pow2, BucketsHold, AllChained;
      tail := e;
      numBuckets, log2NumBuckets := 32, INITIAL_NUM_BUCKETS_LOG2;
      numItems, idealChainMaxlen, nonidealItems, ineffExpands, noexpand := 0, 0, 0, 0, false;
      buckets := new Bucket<V>[32](_ => Bucket(null, 0, 0));
      m := FreshTable();
      EmptyBuckets(buckets);
    }

    lemma EmptyBuckets(bs: array<Bucket<V>>)
      requires bs.Length == 32
      requires forall b {:trigger bs[b]} :: 0 <= b < bs.Length ==> bs[b] == Bucket(null, 0, 0)
      ensures var s := FreshTable<V>();
              |s.chains| == 32 && BucketsHold(bs, s.chains, s.mults) && AllChained(s.items, s.chains)
    {
      assert Pow2(5) == 32;
    }

    /** The insertion-order half of HASH_ADD_KEYPTR on an existing table. */
    method Append(e: Entry<V>, ghost items: seq<Entry<V>>)
      requires items != [] && NoDup(items) && e !in items && AppOrderOk(items)
      modifies `tail, items`next, e`next, e`prev, e`hashv
      ensures AppOrderOk(items + [e])
    {
      e.next := null;
      tail.next := e;
      e.prev := tail;
      tail := e;
      e.hashv := fcn(e.key);
    }

    /** Links `e` in front of the chain of `bkt`; `e` is in no chain yet. */
    method LinkFront(bs: array<Bucket<V>>, bkt: nat, e: Entry<V>,
                     ghost items: seq<Entry<V>>, ghost chains: seq<seq<Entry<V>>>)
      requires bs.Length == |chains| && bkt < |chains|
      requires bs[bkt].head == Nth(chains[bkt], 0)
      requires AllChained(items, chains) && Placed(fcn, chains) && e in items
      requires forall b :: 0 <= b < |chains| ==> e !in chains[b]
      modifies bs, items`hhPrev, e`hhNext
      ensures forall b {:trigger bs[b]} :: 0 <= b < bs.Length ==>
                bs[b] == if b == bkt then old(bs[b]).(head := e) else old(bs[b])
      ensures AllChained(items, chains[bkt := [e] + chains[bkt]])
    {
      var first := bs[bkt].head;
      e.hhNext := first;
      e.hhPrev := null;
      if first != null {
        first.hhPrev := e;
      }
      bs[bkt] := bs[bkt].(head := e);
      ghost var grown := chains[bkt := [e] + chains[bkt]];
      forall b | 0 <= b < |chains| ensures Chained(grown[b]) {
        assert old(Chained(chains[b]));
        assert forall i :: 0 <= i < |chains[b]| ==> chains[b][i] in items && chains[b][i] != e;
        if b != bkt {
          assert forall i :: 0 <= i < |chains[b]| ==> chains[b][i] != first;
        }
      }
    }

    /** The bucket half of an addition: HASH_ADD_TO_BKT up to its expansion test. */
    method LinkInBucket(e: Entry<V>, bkt: nat, ghost items: seq<Entry<V>>,
                        ghost chains: seq<seq<Entry<V>>>, ghost mults: seq<nat>)
      requires BucketsHold(buckets, chains, mults) && AllChained(items, chains) && bkt < |chains|
      requires Placed(fcn, chains) && e !in items
      modifies buckets, items`hhPrev, e`hhPrev, e`hhNext
      ensures BucketsHold(buckets, chains[bkt := [e] + chains[bkt]], mults)
      ensures AllChained(items + [e], chains[bkt := [e] + chains[bkt]])
    {
      assert forall b, j :: 0 <= b < |chains| && 0 <= j < |chains[b]| ==> chains[b][j] in items + [e];
      assert forall x :: x in items + [e] <==> x in items || x == e;
      buckets[bkt] := buckets[bkt].(count := buckets[bkt].count + 1);
      LinkFront(buckets, bkt, e, items + [e], chains);
    }

    /** The table between the two halves of an addition: `e` is in the insertion list only. */
    ghost predicate Enlisted(e: Entry<V>)
      reads this, buckets, Items(m), e
    {
      && m.Table? && head != null && e !in m.items
      && FieldsOk(m) && AppOrderOk(m.items + [e]) && e.hashv == fcn(e.key)
      && BucketsHold(buckets, m.chains, m.mults) && AllChained(m.items, m.chains)
      && Shaped(m) && Placed(fcn, m.chains) && |m.chains| == Pow2(m.lb)
    }

    method EnlistFirst(e: Entry<V>)
      requires head == null
      modifies this, e`next, e`prev, e`hashv
      ensures m == FreshTable<V>() && fresh(buckets) && Enlisted(e)
    {
      e.next := null;
      head := e;
      e.prev := null;
      MakeTable(e);
      e.hashv := fcn(e.key);
      assert m.items + [e] == [e];
    }

    method EnlistNext(e: Entry<V>)
      requires Valid() && m.Table? && e !in m.items
      modifies `tail, m.items`next, e`next, e`prev, e`hashv
      ensures Enlisted(e)
    {
      hide Partition;
      PushFacts(fcn, m, e);
      Append(e, m.items);
      assert e == (m.items + [e])[|m.items|];
    }

    /** HASH_TO_BKT on the current bucket array. */
    method Masked(e: Entry<V>) returns (bkt: nat)
      requires numBuckets == Pow2(log2NumBuckets) && e.hashv == fcn(e.key)
      ensures bkt == Slot(fcn, e, numBuckets)
    {
      bkt := And(e.hashv, numBuckets - 1);
      MaskIsMod(e.hashv, log2NumBuckets);
    }

    /** Counting the new element and linking it into its bucket. */
    method HashIn(e: Entry<V>) returns (bkt: nat)
      requires Enlisted(e) && WellFormed(fcn, BucketModel.Push(fcn, m, e))
      modifies `numItems, `m, buckets, m.items`hhPrev, e`hhPrev, e`hhNext
      ensures m == BucketModel.Push(fcn, old(m), e)
      ensures Valid() && bkt == Slot(fcn, e, |m.chains|)
    {
      hide WellFormed, BucketsHold, AllChained, Listed, Hashed, Placed;
      numItems := numItems + 1;
      bkt := Masked(e);
      LinkInBucket(e, bkt, m.items, m.chains, m.mults);
      m := BucketModel.Push(fcn, m, e);
    }

    /** HASH_ADD_KEYPTR up to the expansion test. */
    method Push(e: Entry<V>) returns (bkt: nat)
      requires Valid() && e !in Items(m)
      modifies this, buckets, Items(m), e
      ensures m == BucketModel.Push(fcn, if old(m).NoTable? then FreshTable() else old(m), e)
      ensures Valid() && bkt == Slot(fcn, e, |m.chains|)
      ensures buckets == old(buckets) || fresh(buckets)
    {
      hide WellFormed;
      PushFacts(fcn, m, e);
      if head == null {
        EnlistFirst(e);
      } else {
        EnlistNext(e);
      }
      bkt := HashIn(e);
    }

    /** The counter updates of one rethreading step. */
    method CountOne(newBuckets: array<Bucket<V>>, bkt: nat, ideal: nat)
      requires bkt < newBuckets.Length && ideal >= 1
      modifies `nonidealItems, newBuckets
      ensures var c := old(newBuckets[bkt].count) + 1;
              && nonidealItems == old(nonidealItems) + (if c > ideal then 1 else 0)
              && newBuckets[bkt] == old(newBuckets[bkt]).(count := c,
                   expandMult := if c > ideal then c / ideal else old(newBuckets[bkt].expandMult))
      ensures forall b {:trigger newBuckets[b]} :: 0 <= b < newBuckets.Length && b != bkt ==>
                newBuckets[b] == old(newBuckets[b])
    {
      newBuckets[bkt] := newBuckets[bkt].(count := newBuckets[bkt].count + 1);
      if newBuckets[bkt].count > ideal {
        nonidealItems := nonidealItems + 1;
        newBuckets[bkt] := newBuckets[bkt].(expandMult := newBuckets[bkt].count / ideal);
      }
    }

    /** One step of the rethreading loop: `thh` goes to the front of new bucket `bkt`. */
    method RethreadOne(newBuckets: array<Bucket<V>>, thh: Entry<V>, bkt: nat, ideal: nat,
                       ghost items: seq<Entry<V>>, ghost d: seq<seq<Entry<V>>>)
      requires BucketsHold(newBuckets, d, Mults(d, ideal)) && AllChained(items, d)
      requires bkt < |d| && ideal >= 1 && Placed(fcn, d) && thh in items
      requires forall b :: 0 <= b < |d| ==> thh !in d[b]
      requires nonidealItems == Sum(Excesses(d, ideal))
      modifies `nonidealItems, newBuckets, items`hhPrev, thh`hhNext
      ensures var d' := d[bkt := [thh] + d[bkt]];
              && BucketsHold(newBuckets, d', Mults(d', ideal)) && AllChained(items, d')
              && nonidealItems == Sum(Excesses(d', ideal))
    {
      hide AllChained, Placed, Sum;
      OneMoreCounted(d, bkt, thh, ideal);
      CountOne(newBuckets, bkt, ideal);
      LinkFront(newBuckets, bkt, thh, items, d);
    }

    /** The new bucket array while old chain `i` is being moved and `j` of its items have been. */
    ghost predicate Moving(newBuckets: array<Bucket<V>>, ideal: nat, items: seq<Entry<V>>,
                           chains: seq<seq<Entry<V>>>, i: nat, j: nat)
      requires Cursor(chains, i, j)
      reads `nonidealItems, newBuckets, items`hhNext, items`hhPrev
    {
      var d := Moved(fcn, chains, i, j);
      && BucketsHold(newBuckets, d, Mults(d, ideal)) && AllChained(items, d)
      && nonidealItems == Sum(Excesses(d, ideal))
    }

    /** HASH_TO_BKT on the doubled array, then one item moved. */
    method MoveOne(newBuckets: array<Bucket<V>>, ideal: nat, thh: Entry<V>,
                   ghost items: seq<Entry<V>>, ghost chains: seq<seq<Entry<V>>>, ghost i: nat, ghost j: nat)
      requires ideal >= 1 && i < |chains| && j < |chains[i]| && thh == chains[i][j]
      requires Placed(fcn, chains) && |chains| == numBuckets == Pow2(log2NumBuckets)
      requires forall b, j :: 0 <= b < |chains| && 0 <= j < |chains[b]| ==> chains[b][j] in items
      requires thh.hashv == fcn(thh.key) && Moving(newBuckets, ideal, items, chains, i, j)
      modifies `nonidealItems, newBuckets, items`hhPrev, thh`hhNext
      ensures Moving(newBuckets, ideal, items, chains, i, j + 1)
    {
      ghost var d := Moved(fcn, chains, i, j);
      var bkt := And(thh.hashv, numBuckets * 2 - 1);
      MaskIsMod(thh.hashv, log2NumBuckets + 1);
      assert bkt == Slot(fcn, thh, 2 * |chains|);
      forall b | 0 <= b < |d| ensures thh !in d[b] {
        NotYetMoved(fcn, chains, i, j, b);
      }
      MovedPlaced(fcn, items, chains, i, j);
      OneMoved(fcn, chains, i, j);
      RethreadOne(newBuckets, thh, bkt, ideal, items, d);
    }

    /** The inner loop of HASH_EXPAND_BUCKETS, over old chain `i`. */
    method MoveChain(newBuckets: array<Bucket<V>>, ideal: nat, first: Entry?<V>,
                     ghost items: seq<Entry<V>>, ghost chains: seq<seq<Entry<V>>>, ghost i: nat)
      requires ideal >= 1 && i < |chains| && first == Nth(chains[i], 0)
      requires Placed(fcn, chains) && |chains| == numBuckets == Pow2(log2NumBuckets)
      requires forall b, j :: 0 <= b < |chains| && 0 <= j < |chains[b]| ==> chains[b][j] in items
      requires Hashed(fcn, items) && Moving(newBuckets, ideal, items, chains, i, 0)
      requires forall k :: i <= k < |chains| ==> NextFrom(chains[k], 0)
      modifies `nonidealItems, newBuckets, items`hhPrev, items`hhNext
      ensures Moving(newBuckets, ideal, items, chains, i + 1, 0)
      ensures forall k :: i < k < |chains| ==> NextFrom(chains[k], 0)
    {
      hide Moving, NextFrom, Placed, Hashed;
      var thh := first;
      ghost var j := 0;
      while thh != null
        invariant 0 <= j <= |chains[i]| && thh == Nth(chains[i], j)
        invariant Moving(newBuckets, ideal, items, chains, i, j)
        invariant NextFrom(chains[i], j)
        invariant forall k :: i < k < |chains| ==> NextFrom(chains[k], 0)
        decreases |chains[i]| - j
      {
        thh := MoveNext(newBuckets, ideal, thh, items, chains, i, j);
        j := j + 1;
      }
      ChainDone(newBuckets, ideal, items, chains, i);
    }

    lemma ChainDone(newBuckets: array<Bucket<V>>, ideal: nat, items: seq<Entry<V>>, chains: seq<seq<Entry<V>>>, i: nat)
      requires i < |chains| && Moving(newBuckets, ideal, items, chains, i, |chains[i]|)
      ensures Moving(newBuckets, ideal, items, chains, i + 1, 0)
    {
      ChainMoved(fcn, chains, i);
    }

    /** The body of that loop: the successor is read before the element moves. */
    method MoveNext(newBuckets: array<Bucket<V>>, ideal: nat, thh: Entry<V>, ghost items: seq<Entry<V>>,
                    ghost chains: seq<seq<Entry<V>>>, ghost i: nat, ghost j: nat) returns (nxt: Entry?<V>)
      requires ideal >= 1 && i < |chains| && j < |chains[i]| && thh == chains[i][j]
      requires Placed(fcn, chains) && |chains| == numBuckets == Pow2(log2NumBuckets)
      requires forall b, j :: 0 <= b < |chains| && 0 <= j < |chains[b]| ==> chains[b][j] in items
      requires Hashed(fcn, items) && Moving(newBuckets, ideal, items, chains, i, j)
      requires NextFrom(chains[i], j) && forall k :: i < k < |chains| ==> NextFrom(chains[k], 0)
      modifies `nonidealItems, newBuckets, items`hhPrev, thh`hhNext
      ensures Moving(newBuckets, ideal, items, chains, i, j + 1) && nxt == Nth(chains[i], j + 1)
      ensures NextFrom(chains[i], j + 1) && forall k :: i < k < |chains| ==> NextFrom(chains[k], 0)
    {
      hide Moving;
      nxt := thh.hhNext;
      forall k, l | i < k < |chains| && 0 <= l < |chains[k]| ensures chains[k][l] != thh {
        assert Slot(fcn, thh, |chains|) == i;
      }
      assert forall l :: j < l < |chains[i]| ==> chains[i][l] != thh;
      assert thh in items;
      MoveOne(newBuckets, ideal, thh, items, chains, i, j);
    }

    lemma StartMoving(newBuckets: array<Bucket<V>>, ideal: nat, items: seq<Entry<V>>, chains: seq<seq<Entry<V>>>)
      requires |chains| >= 1 && newBuckets.Length == 2 * |chains| && nonidealItems == 0
      requires forall b {:trigger newBuckets[b]} :: 0 <= b < newBuckets.Length ==> newBuckets[b] == Bucket(null, 0, 0)
      ensures Moving(newBuckets, ideal, items, chains, 0, 0)
    {
      NothingMoved(fcn, chains);
      SumZeros(Excesses(Moved(fcn, chains, 0, 0), ideal));
    }

    /** The outer loop of HASH_EXPAND_BUCKETS. */
    method MoveAll(newBuckets: array<Bucket<V>>, ideal: nat)
      requires m.Table? && WellFormed(fcn, m) && newBuckets != buckets && ideal >= 1
      requires numBuckets == |m.chains| && log2NumBuckets == m.lb && Hashed(fcn, m.items)
      requires BucketsHold(buckets, m.chains, m.mults) && AllChained(m.items, m.chains)
      requires Moving(newBuckets, ideal, m.items, m.chains, 0, 0)
      modifies `nonidealItems, newBuckets, m.items`hhPrev, m.items`hhNext
      ensures var d := SplitChains(fcn, m.chains);
              && BucketsHold(newBuckets, d, Mults(d, ideal)) && AllChained(m.items, d)
              && nonidealItems == Sum(Excesses(d, ideal))
    {
      ghost var items, chains := m.items, m.chains;
      PartitionPlaces(fcn, items, chains);
      var i := 0;
      while i < numBuckets
        invariant 0 <= i <= numBuckets == |chains|
        invariant Moving(newBuckets, ideal, items, chains, i, 0)
        invariant forall k :: i <= k < |chains| ==> NextFrom(chains[k], 0)
      {
        MoveChain(newBuckets, ideal, buckets[i].head, items, chains, i);
        i := i + 1;
      }
      AllMoved(fcn, chains);
    }

    /** The shift-and-mask computation of the ideal chain length for the doubled array. */
    method ComputeIdeal() returns (ideal: nat)
      requires numBuckets == Pow2(log2NumBuckets) && numItems > 0
      ensures ideal == IdealChainMaxlen(numItems, log2NumBuckets) && ideal >= 1
    {
      IdealIsCeiling(numItems, log2NumBuckets);
      ideal := Shr(numItems, log2NumBuckets + 1) + (if And(numItems, numBuckets * 2 - 1) != 0 then 1 else 0);
    }

    /** The last assignments of HASH_EXPAND_BUCKETS: two ineffective expansions in a row inhibit
        any further one. */
    method JudgeExpansion()
      modifies `ineffExpands, `noexpand
      ensures ineffExpands == if nonidealItems > numItems / 2 then old(ineffExpands) + 1 else 0
      ensures noexpand == (old(noexpand) || ineffExpands > 1)
    {
      ShiftIsDiv(numItems, 1);
      ineffExpands := if nonidealItems > Shr(numItems, 1) then ineffExpands + 1 else 0;
      if ineffExpands > 1 {
        noexpand := true;
      }
    }

    /** The new array of HASH_EXPAND_BUCKETS, filled, before it replaces the old one. */
    method Rebuild() returns (newBuckets: array<Bucket<V>>)
      requires Valid() && m.Table?
      modifies `idealChainMaxlen, `nonidealItems, m.items`hhPrev, m.items`hhNext
      ensures fresh(newBuckets) && idealChainMaxlen == IdealChainMaxlen(|m.items|, m.lb)
      ensures var d := SplitChains(fcn, m.chains);
              && BucketsHold(newBuckets, d, Mults(d, idealChainMaxlen)) && AllChained(m.items, d)
              && nonidealItems == Sum(Excesses(d, idealChainMaxlen))
    {
      hide Moving, WellFormed, Valid, AppOrderOk, Listed, Hashed, BucketsHold, AllChained, Pow2, NoDup, Sum;
      UsesTable();
      newBuckets := new Bucket<V>[2 * numBuckets](_ => Bucket(null, 0, 0));
      idealChainMaxlen := ComputeIdeal();
      nonidealItems := 0;
      StartMoving(newBuckets, idealChainMaxlen, m.items, m.chains);
      MoveAll(newBuckets, idealChainMaxlen);
    }

    /** The last assignments of HASH_EXPAND_BUCKETS, once the new array is filled. */
    method Install(newBuckets: array<Bucket<V>>)
      requires m.Table? && Shaped(m) && numBuckets == |m.chains| && log2NumBuckets == m.lb
      requires numItems == |m.items| && ineffExpands == m.ineff && noexpand == m.noexpand
      requires idealChainMaxlen == Expand(fcn, m).ideal && nonidealItems == Expand(fcn, m).nonideal
      modifies `numBuckets, `log2NumBuckets, `buckets, `ineffExpands, `noexpand, `m
      ensures m == Expand(fcn, old(m)) && FieldsOk(m) && buckets == newBuckets
      ensures ineffExpands == m.ineff && noexpand == m.noexpand
    {
      hide SplitChains, Sum, IdealChainMaxlen, Excesses, Mults;
      numBuckets := numBuckets * 2;
      log2NumBuckets := log2NumBuckets + 1;
      buckets := newBuckets;
      JudgeExpansion();
      m := Expand(fcn, m);
    }

    /** HASH_EXPAND_BUCKETS. */
    method ExpandBuckets()
      requires Valid() && m.Table?
      modifies this, m.items`hhPrev, m.items`hhNext
      ensures Valid() && m == Expand(fcn, old(m)) && fresh(buckets)
      ensures ineffExpands == if GrowthPolicy.Crowded(m) then old(ineffExpands) + 1 else 0
      ensures noexpand == (old(noexpand) || ineffExpands > 1)
    {
      hide *;
      UsesTable();
      GrowthPolicy.ExpandJudged(fcn, m);
      ExpandIs(fcn, m);
      ExpandWellFormed(fcn, m);
      var newBuckets := Rebuild();
      Install(newBuckets);
      IsValid();
    }

    lemma IsValid()
      requires m.Table? && WellFormed(fcn, m) && AppOrderOk(m.items) && FieldsOk(m)
      requires BucketsHold(buckets, m.chains, m.mults) && AllChained(m.items, m.chains)
      ensures Valid()
    {
    }

    lemma FieldsMatch()
      requires m.Table? && numBuckets == |m.chains| && log2NumBuckets == m.lb && numItems == |m.items|
      requires idealChainMaxlen == m.ideal && nonidealItems == m.nonideal && ineffExpands == m.ineff && noexpand == m.noexpand
      ensures FieldsOk(m)
    {
    }

    /** What a table in use may take for granted. */
    lemma UsesTable()
      requires Valid() && m.Table?
      ensures Items(m) == m.items != [] && NoDup(m.items) && Shaped(m) && |m.chains| == Pow2(m.lb)
      ensures head == m.items[0] && WellFormed(fcn, m) && AppOrderOk(m.items) && Listed(m.items) && Hashed(fcn, m.items)
      ensures BucketsHold(buckets, m.chains, m.mults) && AllChained(m.items, m.chains) && FieldsOk(m)
      ensures numBuckets == |m.chains| && log2NumBuckets == m.lb && numItems == |m.items|
      ensures idealChainMaxlen == m.ideal && nonidealItems == m.nonideal && ineffExpands == m.ineff && noexpand == m.noexpand
    {
    }

    /** The end of HASH_SRT: the list is the sorted one now. */
    method Relink(list: Entry<V>, last: Entry<V>, ghost items: seq<Entry<V>>)
      requires m.Table? && items != [] && |items| == |m.items| && list == items[0] && last == items[|items| - 1]
      requires WellFormed(fcn, m.(items := items)) && Listed(items) && Hashed(fcn, items) && FieldsOk(m)
      requires BucketsHold(buckets, m.chains, m.mults) && AllChained(items, m.chains)
      modifies `head, `tail, `m
      ensures Valid() && m == old(m).(items := items)
    {
      hide WellFormed, Listed, Hashed, BucketsHold, AllChained, Valid;
      tail := last;
      head := list;
      m := m.(items := items);
      IsValid();
    }

    /** HASH_ADD_KEYPTR: the whole addition, expansion included. */
    method Add(e: Entry<V>)
      requires Valid() && e !in Items(m)
      modifies this, buckets, Items(m), e
      ensures Valid() && m == BucketModel.Add(fcn, old(m), e)
      ensures Items(m) == old(Items(m)) + [e]
      ensures buckets == old(buckets) || fresh(buckets)
    {
      hide WellFormed;
      AddWellFormed(fcn, m, e);
      var bkt := Push(e);
      if buckets[bkt].count >= (buckets[bkt].expandMult + 1) * BKT_CAPACITY_THRESH && !noexpand {
        ExpandBuckets();
      }
    }

    /** HASH_FIND. */
    method Find(key: string) returns (out: Entry?<V>)
      requires Valid()
      ensures BucketModel.Find(fcn, m, key) == if out == null then [] else [out]
      ensures out == null <==> forall i :: 0 <= i < |Items(m)| ==> Items(m)[i].key != key
      ensures out != null ==> out in Items(m) && out.key == key
    {
      out := null;
      FindRefinesScan(fcn, m, key);
      if head != null {
        var bkt := And(fcn(key), numBuckets - 1);
        MaskIsMod(fcn(key), log2NumBuckets);
        out := buckets[bkt].head;
        ghost var c := m.chains[bkt];
        ghost var j := 0;
        assert c[0..] == c;
        while out != null && out.key != key
          invariant 0 <= j <= |c| && out == Nth(c, j)
          invariant FirstWithKey(c, key) == FirstWithKey(c[j..], key)
          decreases |c| - j
        {
          assert c[j..][1..] == c[j + 1..];
          out, j := out.hhNext, j + 1;
        }
      }
    }

    /** The insertion-order half of HASH_DELETE, for an item that is not the only one. */
    method Unlist(e: Entry<V>, ghost items: seq<Entry<V>>, ghost i: nat)
      requires |items| > 1 && i < |items| && items[i] == e && NoDup(items) && AppOrderOk(items)
      modifies `head, `tail, items`next, items`prev
      ensures AppOrderOk(Without(items, i))
    {
      if e == tail {
        tail := e.prev;
      }
      assert e.prev == Nth(items, i - 1) && e.next == Nth(items, i + 1);
      if e.prev != null {
        e.prev.next := e.next;
      } else {
        head := e.next;
      }
      if e.next != null {
        e.next.prev := e.prev;
      }
      assert forall q {:trigger items[q].next} :: 0 <= q < |items| ==>
          items[q].next == if q == i - 1 then Nth(items, i + 1) else Nth(items, q + 1);
      assert forall q {:trigger items[q].prev} :: 0 <= q < |items| ==>
          items[q].prev == if q == i + 1 then Nth(items, i - 1) else Nth(items, q - 1);
      ListedWithout(items, i);
    }

    /** An insertion list whose two links over position `i` lead past it. */
    lemma ListedWithout(items: seq<Entry<V>>, i: nat)
      requires i < |items| && Hashed(fcn, items)
      requires forall q {:trigger items[q].next} :: 0 <= q < |items| ==>
                 items[q].next == if q == i - 1 then Nth(items, i + 1) else Nth(items, q + 1)
      requires forall q {:trigger items[q].prev} :: 0 <= q < |items| ==>
                 items[q].prev == if q == i + 1 then Nth(items, i - 1) else Nth(items, q - 1)
      ensures Listed(Without(items, i)) && Hashed(fcn, Without(items, i))
    {
      ghost var r := Without(items, i);
      WithoutAt(items, i);
      forall k {:trigger r[k].next} {:trigger r[k].prev} {:trigger r[k].hashv} | 0 <= k < |r|
        ensures r[k].next == Nth(r, k + 1) && r[k].prev == Nth(r, k - 1) && r[k].hashv == fcn(r[k].key)
      {
        assert r[k] == items[if k < i then k else k + 1];
      }
    }

    /** HASH_DEL_IN_BKT. */
    method UnlinkFromBucket(e: Entry<V>, bkt: nat, ghost items: seq<Entry<V>>,
                            ghost chains: seq<seq<Entry<V>>>, ghost mults: seq<nat>, ghost j: nat)
      requires BucketsHold(buckets, chains, mults) && AllChained(items, chains) && Placed(fcn, chains)
      requires bkt < |chains| && j < |chains[bkt]| && chains[bkt][j] == e
      modifies buckets, items`hhPrev, items`hhNext
      ensures var chains' := chains[bkt := Without(chains[bkt], j)];
              BucketsHold(buckets, chains', mults) && AllChained(items, chains')
    {
      ghost var c := chains[bkt];
      ghost var shrunk := chains[bkt := Without(c, j)];
      assert Chained(c) && (e.hhNext == Nth(c, j + 1));
      buckets[bkt] := buckets[bkt].(count := buckets[bkt].count - 1);
      if buckets[bkt].head == e {
        buckets[bkt] := buckets[bkt].(head := e.hhNext);
      }
      WithoutAt(c, j);
      UnlinkNode(e, c, j);
      forall b | 0 <= b < |chains| ensures Chained(shrunk[b]) {
        if b != bkt {
          assert old(Chained(chains[b]));
          ChainsApart(chains, b, bkt);
        }
      }
    }

    lemma ChainsApart(chains: seq<seq<Entry<V>>>, b: nat, a: nat)
      requires Placed(fcn, chains) && a < |chains| && b < |chains| && a != b
      ensures forall i :: 0 <= i < |chains[b]| ==> chains[b][i] !in chains[a]
    {
    }

    /** The pointer updates of HASH_DEL_IN_BKT on one chain. */
    method UnlinkNode(e: Entry<V>, ghost c: seq<Entry<V>>, ghost j: nat)
      requires Chained(c) && NoDup(c) && j < |c| && c[j] == e
      modifies c`hhNext, c`hhPrev
      ensures Chained(Without(c, j))
    {
      assert e.hhPrev == Nth(c, j - 1) && e.hhNext == Nth(c, j + 1);
      if e.hhPrev != null {
        e.hhPrev.hhNext := e.hhNext;
      }
      if e.hhNext != null {
        e.hhNext.hhPrev := e.hhPrev;
      }
      assert forall q {:trigger c[q].hhNext} :: 0 <= q < |c| ==>
          c[q].hhNext == if q == j - 1 then Nth(c, j + 1) else Nth(c, q + 1);
      assert forall q {:trigger c[q].hhPrev} :: 0 <= q < |c| ==>
          c[q].hhPrev == if q == j + 1 then Nth(c, j - 1) else Nth(c, q - 1);
      ghost var r := Without(c, j);
      WithoutAt(c, j);
      forall k {:trigger r[k].hhNext} {:trigger r[k].hhPrev} | 0 <= k < |r|
        ensures r[k].hhNext == Nth(r, k + 1) && r[k].hhPrev == Nth(r, k - 1)
      {
        assert r[k] == c[if k < j then k else k + 1];
      }
    }

    /** The two patch-ups of HASH_DELETE, for an item that is not the only one. */
    method PatchUp(e: Entry<V>, ghost s: State<V>, ghost i: nat)
      requires Shaped(s) && |s.items| > 1 && i < |s.items| && s.items[i] == e && NoDup(s.items)
      requires AppOrderOk(s.items) && numBuckets == |s.chains| == Pow2(log2NumBuckets)
      requires BucketsHold(buckets, s.chains, s.mults) && AllChained(s.items, s.chains) && Placed(fcn, s.chains)
      requires e in s.chains[Slot(fcn, e, |s.chains|)]
      modifies `head, `tail, buckets, s.items
      ensures AppOrderOk(Without(s.items, i))
      ensures var b := Slot(fcn, e, |s.chains|);
              var chains' := s.chains[b := Without(s.chains[b], IndexOf(s.chains[b], e))];
              BucketsHold(buckets, chains', s.mults) && AllChained(s.items, chains')
    {
      hide Placed, BucketsHold, AllChained, Listed;
      assert s.items[i].hashv == fcn(e.key);
      var bkt := Masked(e);
      Unlist(e, s.items, i);
      UnlinkFromBucket(e, bkt, s.items, s.chains, s.mults, IndexOf(s.chains[bkt], e));
    }

    method Unlink(e: Entry<V>, ghost i: nat)
      requires Valid() && m.Table? && |m.items| > 1 && i < |m.items| && m.items[i] == e
      modifies this, buckets, m.items
      ensures Valid() && buckets == old(buckets)
      ensures m == BucketModel.Delete(fcn, old(m), i)
    {
      hide *;
      UsesTable();
      DeleteFacts(fcn, m, i);
      ghost var items, s := m.items, BucketModel.Delete(fcn, m, i);
      DeletedState(fcn, m, i);
      PatchUp(e, m, i);
      numItems := numItems - 1;
      m := s;
      StillChained(items, m);
      FieldsMatch();
      IsValid();
    }

    /** What `BucketModel.Delete` keeps and changes, for an item that is not the only one. */
    lemma DeletedState(fcn: HashFcn, s: State<V>, i: nat)
      requires s.Table? && Shaped(s) && |s.items| > 1 && i < |s.items|
      requires s.items[i] in s.chains[Slot(fcn, s.items[i], |s.chains|)]
      ensures var b, r := Slot(fcn, s.items[i], |s.chains|), BucketModel.Delete(fcn, s, i);
              r == s.(items := Without(s.items, i),
                      chains := s.chains[b := Without(s.chains[b], IndexOf(s.chains[b], s.items[i]))])
              && |r.items| == |s.items| - 1
    {
    }

    lemma StillChained(items: seq<Entry<V>>, s: State<V>)
      requires WellFormed(fcn, s) && s.Table? && AllChained(items, s.chains)
      ensures AllChained(s.items, s.chains)
    {
    }

    /** HASH_DELETE. */
    method Delete(e: Entry<V>)
      requires Valid() && e in Items(m)
      modifies this, buckets, Items(m)
      ensures Valid() && m == BucketModel.Delete(fcn, old(m), IndexOf(old(Items(m)), e))
      ensures Items(m) == Without(old(Items(m)), IndexOf(old(Items(m)), e))
      ensures buckets == old(buckets)
    {
      ghost var i := IndexOf(m.items, e);
      assert |m.items| > 1 <==> e.prev != null || e.next != null;
      DeleteFacts(fcn, m, i);
      if e.prev == null && e.next == null {
        head := null;
        m := NoTable;
      } else {
        Unlink(e, i);
      }
    }
  }
}
