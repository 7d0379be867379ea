/** The state of a uthash table as a value, and the effect of each macro on it. `UtHash` proves
    that the pointer code has exactly these effects. */
module BucketModel {
  import opened Bits
  import opened Sums

  /** One hashed element: an `ht_entry` together with the `UT_hash_handle` inside it. */
  class Entry<V> {
    const key: string
    const data: V
    var hashv: nat
    var prev: Entry?<V>    // insertion order
    var next: Entry?<V>
    var hhPrev: Entry?<V>  // bucket chain
    var hhNext: Entry?<V>

    constructor (key: string, data: V)
      ensures this.key == key && this.data == data
    {
      this.key, this.data := key, data;
      hashv, prev, next, hhPrev, hhNext := 0, null, null, null, null;
    }
  }

  const INITIAL_NUM_BUCKETS_LOG2 := 5
  const BKT_CAPACITY_THRESH := 10

  /** `NoTable` is a null head. `items` is the insertion-order list, `chains[b]` the chain of
      bucket `b` from its head, `mults[b]` its `expand_mult`. */
  datatype State<V> =
    | NoTable
    | Table(items: seq<Entry<V>>, chains: seq<seq<Entry<V>>>, mults: seq<nat>, lb: nat,
            ideal: nat, nonideal: nat, ineff: nat, noexpand: bool)

  type HashFcn = string -> nat

  function Slot<V>(fcn: HashFcn, e: Entry<V>, n: nat): (b: nat)
    requires n >= 1
    ensures b < n
  {
    fcn(e.key) % n
  }

  function Items<V>(s: State<V>): seq<Entry<V>> {
    if s.NoTable? then [] else s.items
  }

  function Lens<V>(chains: seq<seq<Entry<V>>>): (r: seq<nat>)
    ensures |r| == |chains|
  {
    seq(|chains|, i requires 0 <= i < |chains| => |chains[i]|)
  }

  /** What HASH_FSCK checks, and what it takes for granted: the items are distinct, the chains
      partition them by masked hash value, and the counts add up. */
  ghost predicate WellFormed<V>(fcn: HashFcn, s: State<V>) {
    s.Table? ==>
      && |s.items| > 0 && NoDup(s.items)
      && |s.chains| == |s.mults| == Pow2(s.lb)
      && Sum(Lens(s.chains)) == |s.items|
      && Partition(fcn, s.items, s.chains)
  }

  ghost predicate Partition<V>(fcn: HashFcn, items: seq<Entry<V>>, chains: seq<seq<Entry<V>>>) {
    && |chains| >= 1
    && (forall b :: 0 <= b < |chains| ==> NoDup(chains[b]))
    && (forall b, e :: 0 <= b < |chains| && e in chains[b] ==> e in items && Slot(fcn, e, |chains|) == b)
    && (forall e :: e in items ==> e in chains[Slot(fcn, e, |chains|)])
  }

  /** HASH_MAKE_TABLE, before its first item is linked in. */
  function FreshTable<V>(): State<V> {
    Table([], seq(Pow2(INITIAL_NUM_BUCKETS_LOG2), _ => []), seq(Pow2(INITIAL_NUM_BUCKETS_LOG2), _ => 0),
          INITIAL_NUM_BUCKETS_LOG2, 0, 0, 0, false)
  }

  ghost predicate Shaped<V>(s: State<V>) {
    s.Table? && |s.chains| == |s.mults| >= 1
  }

  /** The part of a chain that hashes to bucket `b` of `m`, in reverse order: the effect of
      pushing each such item on the front of the new chain while walking the old one. */
  function Rethreaded<V>(fcn: HashFcn, c: seq<Entry<V>>, b: nat, m: nat): seq<Entry<V>>
    requires m >= 1
  {
    if c == [] then []
    else
      var e := c[|c| - 1];
      (if Slot(fcn, e, m) == b then [e] else []) + Rethreaded(fcn, c[..|c| - 1], b, m)
  }

  function Mult(count: nat, ideal: nat): nat {
    if count > ideal && ideal > 0 then count / ideal else 0
  }

  function Excess(count: nat, ideal: nat): nat {
    if count > ideal then count - ideal else 0
  }

  function SplitChains<V>(fcn: HashFcn, chains: seq<seq<Entry<V>>>): (r: seq<seq<Entry<V>>>)
    requires |chains| >= 1
    ensures |r| == 2 * |chains|
  {
    seq(2 * |chains|, b requires 0 <= b < 2 * |chains| =>
      Rethreaded(fcn, chains[b % |chains|], b, 2 * |chains|))
  }

  function Mults<V>(chains: seq<seq<Entry<V>>>, ideal: nat): (r: seq<nat>)
    ensures |r| == |chains|
  {
    seq(|chains|, b requires 0 <= b < |chains| => Mult(|chains[b]|, ideal))
  }

  function Excesses<V>(chains: seq<seq<Entry<V>>>, ideal: nat): (r: seq<nat>)
    ensures |r| == |chains|
  {
    seq(|chains|, b requires 0 <= b < |chains| => Excess(|chains[b]|, ideal))
  }

  /** HASH_EXPAND_BUCKETS. */
  function Expand<V>(fcn: HashFcn, s: State<V>): (r: State<V>)
    requires Shaped(s)
    ensures Shaped(r)
  {
    var chains := SplitChains(fcn, s.chains);
    var ideal := IdealChainMaxlen(|s.items|, s.lb);
    var nonideal := Sum(Excesses(chains, ideal));
    var ineff := if nonideal > |s.items| / 2 then s.ineff + 1 else 0;
    Table(s.items, chains, Mults(chains, ideal), s.lb + 1, ideal, nonideal, ineff, s.noexpand || ineff > 1)
  }

  function Push<V>(fcn: HashFcn, s: State<V>, e: Entry<V>): (r: State<V>)
    requires Shaped(s)
    ensures Shaped(r)
  {
    var b := Slot(fcn, e, |s.chains|);
    s.(items := s.items + [e], chains := s.chains[b := [e] + s.chains[b]])
  }

  predicate MustExpand<V>(s: State<V>, b: nat)
    requires s.Table? && |s.chains| == |s.mults| && b < |s.chains|
  {
    |s.chains[b]| >= (s.mults[b] + 1) * BKT_CAPACITY_THRESH && !s.noexpand
  }

  /** HASH_ADD_KEYPTR. */
  function Add<V>(fcn: HashFcn, s: State<V>, e: Entry<V>): (r: State<V>)
    requires s.NoTable? || Shaped(s)
    ensures Shaped(r)
  {
    var p := Push(fcn, if s.NoTable? then FreshTable() else s, e);
    if MustExpand(p, Slot(fcn, e, |p.chains|)) then Expand(fcn, p) else p
  }

  function IndexOf<V>(c: seq<Entry<V>>, e: Entry<V>): (i: nat)
    requires e in c
    ensures i < |c| && c[i] == e
  {
    if c[0] == e then 0 else 1 + IndexOf(c[1..], e)
  }

  /** HASH_DELETE of the `i`-th item: deleting the only item frees the table. */
  function Delete<V>(fcn: HashFcn, s: State<V>, i: nat): (r: State<V>)
    requires Shaped(s) && i < |s.items|
    requires s.items[i] in s.chains[Slot(fcn, s.items[i], |s.chains|)]
    ensures r.NoTable? || Shaped(r)
  {
    if |s.items| == 1 then NoTable
    else
      var b := Slot(fcn, s.items[i], |s.chains|);
      s.(items := Without(s.items, i),
         chains := s.chains[b := Without(s.chains[b], IndexOf(s.chains[b], s.items[i]))])
  }

  // ----- HASH_FIND ---------------------------------------------------------------------------

  /** The first entry of a chain with the given key, by position. */
  function FirstWithKey<V>(c: seq<Entry<V>>, key: string): (r: seq<Entry<V>>)
    ensures |r| <= 1
  {
    if c == [] then [] else if c[0].key == key then [c[0]] else FirstWithKey(c[1..], key)
  }

  /** HASH_FIND: at most one entry, taken from the bucket of the key. */
  function Find<V>(fcn: HashFcn, s: State<V>, key: string): (r: seq<Entry<V>>)
    requires s.NoTable? || Shaped(s)
    ensures |r| <= 1
  {
    if s.NoTable? then [] else FirstWithKey(s.chains[fcn(key) % |s.chains|], key)
  }

  lemma {:induction false} FirstWithKeyFinds<V>(c: seq<Entry<V>>, key: string)
    ensures FirstWithKey(c, key) == [] <==> forall e :: e in c ==> e.key != key
    ensures forall e :: e in FirstWithKey(c, key) ==> e in c && e.key == key
  {
    if c != [] {
      assert c == [c[0]] + c[1..];
      if c[0].key != key {
        FirstWithKeyFinds(c[1..], key);
      }
    }
  }

  /** Searching one chain is as good as searching every item. */
  lemma FindRefinesScan<V>(fcn: HashFcn, s: State<V>, key: string)
    requires WellFormed(fcn, s)
    ensures s.NoTable? || Shaped(s)
    ensures Find(fcn, s, key) == [] <==> forall e :: e in Items(s) ==> e.key != key
    ensures forall e :: e in Find(fcn, s, key) ==> e in Items(s) && e.key == key
  {
    hide Sum, Lens, Pow2, FirstWithKey, Partition;
    if s.Table? {
      FirstWithKeyFinds(s.chains[fcn(key) % |s.chains|], key);
      OneBucketPerKey(fcn, s.items, s.chains, key);
    }
  }

  lemma OneBucketPerKey<V>(fcn: HashFcn, items: seq<Entry<V>>, chains: seq<seq<Entry<V>>>, key: string)
    requires Partition(fcn, items, chains)
    ensures |chains| >= 1 && forall e: Entry<V> {:trigger e in items} {:trigger e in chains[fcn(key) % |chains|]} ::
              e.key == key ==> (e in items <==> e in chains[fcn(key) % |chains|])
  {
  }

  // ----- each operation keeps the table well formed ----------------------------------------------

  lemma AddWellFormed<V>(fcn: HashFcn, s: State<V>, e: Entry<V>)
    requires WellFormed(fcn, s) && e !in Items(s)
    ensures WellFormed(fcn, Add(fcn, s, e))
    ensures Items(Add(fcn, s, e)) == Items(s) + [e]
  {
    var base := if s.NoTable? then FreshTable() else s;
    if s.NoTable? {
      FreshTableSum<V>();
    }
    PushWellFormed(fcn, base, e);
    var p := Push(fcn, base, e);
    ExpandWellFormed(fcn, p);
  }

  lemma SumZeros(xs: seq<nat>)
    requires forall i :: 0 <= i < |xs| ==> xs[i] == 0
    ensures Sum(xs) == 0
  {
  }

  lemma FreshTableSum<V>()
    ensures var s := FreshTable<V>();
            && Sum(Lens(s.chains)) == 0 && Partition((k: string) => 0, s.items, s.chains)
            && |s.chains| == |s.mults| == Pow2(s.lb)
            && forall fcn: HashFcn :: Partition(fcn, s.items, s.chains)
  {
    hide Sum, Pow2;
    SumZeros(Lens(FreshTable<V>().chains));
  }

  lemma PushWellFormed<V>(fcn: HashFcn, s: State<V>, e: Entry<V>)
    requires Shaped(s) && NoDup(s.items) && |s.chains| == Pow2(s.lb)
    requires Sum(Lens(s.chains)) == |s.items| && Partition(fcn, s.items, s.chains)
    requires e !in s.items
    ensures WellFormed(fcn, Push(fcn, s, e))
  {
    hide Sum, Pow2, Lens;
    var r := Push(fcn, s, e);
    var b := Slot(fcn, e, |s.chains|);
    LensUpdate(s.chains, b, [e] + s.chains[b]);
    SumUpdate(Lens(s.chains), b, |s.chains[b]| + 1);
    PushPartition(fcn, s.items, s.chains, e);
  }

  lemma PushPartition<V>(fcn: HashFcn, items: seq<Entry<V>>, chains: seq<seq<Entry<V>>>, e: Entry<V>)
    requires Partition(fcn, items, chains) && e !in items
    ensures var b := Slot(fcn, e, |chains|);
            b < |chains| && Partition(fcn, items + [e], chains[b := [e] + chains[b]])
  {
    var b := Slot(fcn, e, |chains|);
    assert e !in chains[b];
  }

  /** A rethreaded chain holds exactly the items of the old one that belong to the new bucket. */
  lemma {:induction false} RethreadedMember<V>(fcn: HashFcn, c: seq<Entry<V>>, b: nat, m: nat, e: Entry<V>)
    requires m >= 1
    ensures e in Rethreaded(fcn, c, b, m) <==> e in c && Slot(fcn, e, m) == b
  {
    if c != [] {
      assert c == c[..|c| - 1] + [c[|c| - 1]];
      RethreadedMember(fcn, c[..|c| - 1], b, m, e);
    }
  }

  lemma {:induction false} RethreadedNoDup<V>(fcn: HashFcn, c: seq<Entry<V>>, b: nat, m: nat)
    requires m >= 1 && NoDup(c)
    ensures NoDup(Rethreaded(fcn, c, b, m))
  {
    if c != [] {
      var e, d := c[|c| - 1], c[..|c| - 1];
      RethreadedNoDup(fcn, d, b, m);
      RethreadedMember(fcn, d, b, m, e);
      assert e !in d;
    }
  }

  /** Two new buckets share out one old chain when every item of it goes to one of them. */
  lemma {:induction false} RethreadedLengths<V>(fcn: HashFcn, c: seq<Entry<V>>, b: nat, b': nat, m: nat)
    requires m >= 1 && b != b'
    requires forall e :: e in c ==> Slot(fcn, e, m) == b || Slot(fcn, e, m) == b'
    ensures |Rethreaded(fcn, c, b, m)| + |Rethreaded(fcn, c, b', m)| == |c|
  {
    if c != [] {
      assert c == c[..|c| - 1] + [c[|c| - 1]];
      RethreadedLengths(fcn, c[..|c| - 1], b, b', m);
    }
  }

  lemma ModDouble(h: nat, n: nat)
    requires n >= 1
    ensures h % (2 * n) == h % n || h % (2 * n) == h % n + n
    ensures (h % (2 * n)) % n == h % n
  {
    var r := h % (2 * n);
    var q := h / (2 * n);
    assert h == q * (2 * n) + r;
    var r' := if r < n then r else r - n;
    var q' := if r < n then 2 * q else 2 * q + 1;
    assert q' * n == q * (2 * n) + (r - r') by {
      assert (2 * q) * n == q * (2 * n);
      assert (2 * q + 1) * n == (2 * q) * n + n;
    }
    DivModUnique(h, n, q', r');
    DivModUnique(r, n, if r < n then 0 else 1, r');
  }

  lemma SlotDouble<V>(fcn: HashFcn, e: Entry<V>, n: nat)
    requires n >= 1
    ensures Slot(fcn, e, 2 * n) == Slot(fcn, e, n) || Slot(fcn, e, 2 * n) == Slot(fcn, e, n) + n
    ensures Slot(fcn, e, 2 * n) % n == Slot(fcn, e, n)
  {
    ModDouble(fcn(e.key), n);
  }

  /** Doubling sends the items of bucket `b` to `b` and `b + n` only, each keeping its items in
      reverse order, and loses none. */
  lemma SplitOneChain<V>(fcn: HashFcn, items: seq<Entry<V>>, chains: seq<seq<Entry<V>>>, b: nat)
    requires Partition(fcn, items, chains) && b < |chains|
    ensures var n, r := |chains|, SplitChains(fcn, chains);
            && r[b] == Rethreaded(fcn, chains[b], b, 2 * n)
            && r[b + n] == Rethreaded(fcn, chains[b], b + n, 2 * n)
            && |r[b]| + |r[b + n]| == |chains[b]|
  {
    var n := |chains|;
    assert b % n == b && (b + n) % n == b by {
      DivModUnique(b, n, 0, b);
      DivModUnique(b + n, n, 1, b);
    }
    forall e | e in chains[b] ensures Slot(fcn, e, 2 * n) == b || Slot(fcn, e, 2 * n) == b + n {
      assert Slot(fcn, e, n) == b;
      SlotDouble(fcn, e, n);
    }
    RethreadedLengths(fcn, chains[b], b, b + n, 2 * n);
  }

  lemma InItsBucket<V>(fcn: HashFcn, items: seq<Entry<V>>, chains: seq<seq<Entry<V>>>, b: nat, e: Entry<V>)
    requires Partition(fcn, items, chains) && b < |chains| && e in chains[b]
    ensures e in items && Slot(fcn, e, |chains|) == b
  {
  }

  lemma SplitChainMembers<V>(fcn: HashFcn, items: seq<Entry<V>>, chains: seq<seq<Entry<V>>>, b: nat)
    requires Partition(fcn, items, chains) && b < 2 * |chains|
    ensures var c := SplitChains(fcn, chains)[b];
            NoDup(c) && forall e :: e in c ==> e in items && Slot(fcn, e, 2 * |chains|) == b
  {
    var n := |chains|;
    var a := b % n;
    var c := Rethreaded(fcn, chains[a], b, 2 * n);
    assert SplitChains(fcn, chains)[b] == c;
    RethreadedNoDup(fcn, chains[a], b, 2 * n);
    forall e | e in c ensures e in items && Slot(fcn, e, 2 * n) == b {
      RethreadedMember(fcn, chains[a], b, 2 * n, e);
      InItsBucket(fcn, items, chains, a, e);
    }
  }

  lemma SplitChainsPartition<V>(fcn: HashFcn, items: seq<Entry<V>>, chains: seq<seq<Entry<V>>>)
    requires Partition(fcn, items, chains)
    ensures Partition(fcn, items, SplitChains(fcn, chains))
  {
    var n, r := |chains|, SplitChains(fcn, chains);
    forall b | 0 <= b < 2 * n
      ensures NoDup(r[b])
      ensures forall e :: e in r[b] ==> e in items && Slot(fcn, e, 2 * n) == b
    {
      SplitChainMembers(fcn, items, chains, b);
    }
    forall e | e in items ensures e in r[Slot(fcn, e, 2 * n)] {
      var b := Slot(fcn, e, 2 * n);
      SlotDouble(fcn, e, n);
      RethreadedMember(fcn, chains[b % n], b, 2 * n, e);
    }
  }

  lemma SplitChainsSum<V>(fcn: HashFcn, items: seq<Entry<V>>, chains: seq<seq<Entry<V>>>)
    requires Partition(fcn, items, chains)
    ensures Sum(Lens(SplitChains(fcn, chains))) == Sum(Lens(chains))
  {
    var n, lens := |chains|, Lens(SplitChains(fcn, chains));
    forall b | 0 <= b < n ensures Lens(chains)[b] == lens[..n][b] + lens[n..][b] {
      SplitOneChain(fcn, items, chains, b);
    }
    SumSplit(Lens(chains), lens[..n], lens[n..]);
    assert lens[..n] + lens[n..] == lens;
  }

  lemma ExpandWellFormed<V>(fcn: HashFcn, s: State<V>)
    requires WellFormed(fcn, s) && s.Table?
    ensures WellFormed(fcn, Expand(fcn, s))
  {
    SplitChainsPartition(fcn, s.items, s.chains);
    SplitChainsSum(fcn, s.items, s.chains);
  }

  lemma WithoutPartition<V>(fcn: HashFcn, items: seq<Entry<V>>, chains: seq<seq<Entry<V>>>,
                            i: nat, b: nat, j: nat)
    requires Partition(fcn, items, chains) && NoDup(items)
    requires i < |items| && b < |chains| && j < |chains[b]| && chains[b][j] == items[i]
    ensures Partition(fcn, Without(items, i), chains[b := Without(chains[b], j)])
  {
    var items', chains' := Without(items, i), chains[b := Without(chains[b], j)];
    WithoutKeepsTheRest(chains[b], j);
    forall a, e | 0 <= a < |chains'| && e in chains'[a]
      ensures e in items' && Slot(fcn, e, |chains'|) == a
    {
      if a == b {
        WithoutMember(chains[b], j, e);
      }
      assert e in chains[a];
      InItsBucket(fcn, items, chains, a, e);
      InItsBucket(fcn, items, chains, b, items[i]);
      assert e != items[i];
      WithoutMember(items, i, e);
    }
    forall e | e in items' ensures e in chains'[Slot(fcn, e, |chains'|)] {
      WithoutMember(items, i, e);
      WithoutMember(chains[b], j, e);
    }
  }

  lemma DeleteWellFormed<V>(fcn: HashFcn, s: State<V>, i: nat)
    requires WellFormed(fcn, s) && i < |Items(s)|
    ensures WellFormed(fcn, Delete(fcn, s, i))
    ensures Items(Delete(fcn, s, i)) == Without(Items(s), i)
  {
    EntryInChain(fcn, s.items, s.chains, i);
    var e := s.items[i];
    var b := Slot(fcn, e, |s.chains|);
    hide Sum, Pow2, Partition, Lens, IndexOf, Slot;
    if |s.items| > 1 {
      var j := IndexOf(s.chains[b], e);
      WithoutPartition(fcn, s.items, s.chains, i, b, j);
      WithoutKeepsTheRest(s.items, i);
      LensUpdate(s.chains, b, Without(s.chains[b], j));
      SumUpdate(Lens(s.chains), b, |s.chains[b]| - 1);
    }
  }

  lemma EntryInChain<V>(fcn: HashFcn, items: seq<Entry<V>>, chains: seq<seq<Entry<V>>>, i: nat)
    requires Partition(fcn, items, chains) && i < |items|
    ensures var b := Slot(fcn, items[i], |chains|); b < |chains| && items[i] in chains[b]
  {
    assert items[i] in items;
  }

  lemma LensUpdate<V>(chains: seq<seq<Entry<V>>>, b: nat, c: seq<Entry<V>>)
    requires b < |chains|
    ensures Lens(chains[b := c]) == Lens(chains)[b := |c|] && Lens(chains)[b] == |chains[b]|
  {
  }
}
