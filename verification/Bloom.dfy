/** The optional Bloom filter of uthash: a bit per masked hash value, set on every addition and
    consulted before a bucket is searched. */
module Bloom {
  import opened Bits
  import opened Sums
  import opened BucketModel
  import opened UtHash

  function Bit(k: nat): bv8
    requires k < 8
  {
    (1 as bv8) << k
  }

  predicate IsSet(b: bv8, k: nat)
    requires k < 8
  {
    b & Bit(k) != 0
  }

  lemma BitSetsOne(b: bv8, j: nat, k: nat)
    requires j < 8 && k < 8
    ensures IsSet(b | Bit(j), k) <==> j == k || IsSet(b, k)
  {
    assert Bit(0) == 1 && Bit(1) == 2 && Bit(2) == 4 && Bit(3) == 8;
    assert Bit(4) == 16 && Bit(5) == 32 && Bit(6) == 64 && Bit(7) == 128;
  }

  /** `bloom_bv` with `2^nbits` bits. */
  class Filter {
    const nbits: nat
    const bv: array<bv8>
    ghost var marked: set<nat>

    ghost predicate Valid()
      reads this, bv
    {
      && 8 * bv.Length >= Pow2(nbits)
      && (forall x :: x in marked ==> x < Pow2(nbits))
      && forall x: nat {:trigger x in marked} :: x < Pow2(nbits) ==> (x in marked <==> IsSet(bv[x / 8], x % 8))
    }

    /** HASH_BLOOM_MAKE. */
    constructor (nbits: nat)
      ensures Valid() && marked == {} && this.nbits == nbits && fresh(bv)
    {
      this.nbits := nbits;
      bv := new bv8[Pow2(nbits) / 8 + (if Pow2(nbits) % 8 != 0 then 1 else 0)](_ => 0);
      marked := {};
      new;
      assert forall x: nat :: x < Pow2(nbits) ==> bv[x / 8] == 0;
    }

    /** HASH_BLOOM_ADD. */
    method Add(hashv: nat)
      requires Valid()
      modifies this, bv
      ensures Valid() && marked == old(marked) + {hashv % Pow2(nbits)}
    {
      var idx := And(hashv, Pow2(nbits) - 1);
      MaskIsMod(hashv, nbits);
      bv[idx / 8] := bv[idx / 8] | Bit(idx % 8);
      marked := marked + {idx};
      forall x: nat | x < Pow2(nbits) ensures x in marked <==> IsSet(bv[x / 8], x % 8) {
        assert x in old(marked) <==> IsSet(old(bv[x / 8]), x % 8);
        OneBitSet(old(bv[x / 8]), bv[x / 8], idx, x);
      }
    }

    /** HASH_BLOOM_TEST. */
    method Test(hashv: nat) returns (hit: bool)
      requires Valid()
      ensures hit <==> hashv % Pow2(nbits) in marked
    {
      var idx := And(hashv, Pow2(nbits) - 1);
      MaskIsMod(hashv, nbits);
      hit := bv[idx / 8] & Bit(idx % 8) != 0;
      assert idx in marked <==> IsSet(bv[idx / 8], idx % 8);
    }
  }

  /** Setting bit `idx` of a bit vector, as seen at bit `x`. */
  lemma OneBitSet(was: bv8, now: bv8, idx: nat, x: nat)
    requires now == if x / 8 == idx / 8 then was | Bit(idx % 8) else was
    ensures IsSet(now, x % 8) <==> IsSet(was, x % 8) || x == idx
  {
    BitSetsOne(was, idx % 8, x % 8);
    assert x == 8 * (x / 8) + x % 8 && idx == 8 * (idx / 8) + idx % 8;
  }

  ghost predicate Covered<V>(items: seq<Entry<V>>, fcn: HashFcn, m: nat, marked: set<nat>)
    requires m >= 1
  {
    forall i :: 0 <= i < |items| ==> fcn(items[i].key) % m in marked
  }

  lemma NothingToCover<V>(fcn: HashFcn, m: nat)
    requires m >= 1
    ensures Covered<V>([], fcn, m, {})
  {
  }

  lemma CoveredAppend<V>(items: seq<Entry<V>>, fcn: HashFcn, m: nat, marked: set<nat>, e: Entry<V>)
    requires m >= 1 && Covered(items, fcn, m, marked)
    ensures Covered(items + [e], fcn, m, marked + {fcn(e.key) % m})
  {
  }

  lemma CoveredWithout<V>(items: seq<Entry<V>>, fcn: HashFcn, m: nat, marked: set<nat>, i: nat)
    requires m >= 1 && Covered(items, fcn, m, marked) && i < |items|
    ensures Covered(Without(items, i), fcn, m, marked)
  {
    var r := Without(items, i);
    assert forall k :: 0 <= k < |r| ==> r[k] == items[if k < i then k else k + 1];
  }

  /** A table compiled with HASH_BLOOM. The filter lives and dies with the `UT_hash_table`. */
  class FilteredTable<V> {
    const t: Table<V>
    const nbits: nat
    var filter: Filter

    ghost predicate Valid()
      reads this, t, t.buckets, Items(t.m), filter, filter.bv
    {
      && t.Valid() && filter.Valid() && filter.nbits == nbits && (filter.bv as object) != t.buckets
      && Covered(Items(t.m), t.fcn, Pow2(nbits), filter.marked)
    }

    constructor (fcn: HashFcn, nbits: nat)
      ensures Valid() && t.m == NoTable && fresh(t) && fresh(t.buckets) && fresh(filter) && fresh(filter.bv)
    {
      t := new Table<V>(fcn);
      this.nbits := nbits;
      filter := new Filter(nbits);
    }

    /** HASH_BLOOM_MAKE, with the first element of a table. */
    method NewFilter()
      requires Valid() && t.head == null
      modifies `filter
      ensures Valid() && fresh(filter) && fresh(filter.bv)
    {
      hide WellFormed, BucketsHold, AllChained, Listed, Hashed, Covered;
      filter := new Filter(nbits);
      NothingToCover<V>(t.fcn, Pow2(nbits));
    }

    /** HASH_ADD_KEYPTR. */
    method Add(e: Entry<V>)
      requires Valid() && e !in Items(t.m)
      modifies `filter, t, t.buckets, Items(t.m), e, filter, filter.bv
      ensures Valid() && t.m == BucketModel.Add(t.fcn, old(t.m), e)
    {
      hide WellFormed, BucketsHold, AllChained, Listed, Hashed, Covered, Filter.Valid;
      ghost var items := Items(t.m);
      if t.head == null {
        NewFilter();
      }
      CoveredAppend(items, t.fcn, Pow2(nbits), filter.marked, e);
      t.Add(e);
      filter.Add(t.fcn(e.key));
    }

    /** HASH_DELETE: the bits of the deleted key stay set. */
    method Delete(e: Entry<V>)
      requires Valid() && e in Items(t.m)
      modifies t, t.buckets, Items(t.m)
      ensures Valid() && t.m == BucketModel.Delete(t.fcn, old(t.m), IndexOf(old(Items(t.m)), e))
    {
      hide WellFormed, BucketsHold, AllChained, Listed, Hashed, Covered;
      CoveredWithout(Items(t.m), t.fcn, Pow2(nbits), filter.marked, IndexOf(Items(t.m), e));
      t.Delete(e);
    }

    /** HASH_FIND with the filter in front gives what it gives without. */
    method Find(key: string) returns (out: Entry?<V>)
      requires Valid()
      ensures BucketModel.Find(t.fcn, t.m, key) == if out == null then [] else [out]
      ensures out == null <==> forall i :: 0 <= i < |Items(t.m)| ==> Items(t.m)[i].key != key
    {
      FindRefinesScan(t.fcn, t.m, key);
      out := null;
      if t.head != null {
        var hit := filter.Test(t.fcn(key));
        if hit {
          out := t.Find(key);
        }
      }
    }
  }
}
