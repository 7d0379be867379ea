/** Tables that hold several entries of one key, which `ht_add_entry` allows: which of them a lookup
    finds is not stable. */
module Duplicates {
  import opened Sums
  import opened BucketModel

  /** The last entry of a chain with the given key. */
  function LastWithKey<V>(c: seq<Entry<V>>, key: string): (r: seq<Entry<V>>)
    ensures |r| <= 1
  {
    if c == [] then []
    else if c[|c| - 1].key == key then [c[|c| - 1]]
    else LastWithKey(c[..|c| - 1], key)
  }

  lemma {:induction false} LastWithKeyFinds<V>(c: seq<Entry<V>>, key: string)
    ensures LastWithKey(c, key) == [] <==> forall e :: e in c ==> e.key != key
    ensures forall e :: e in LastWithKey(c, key) ==> e in c && e.key == key
  {
    if c != [] {
      assert c == c[..|c| - 1] + [c[|c| - 1]];
      if c[|c| - 1].key != key {
        LastWithKeyFinds(c[..|c| - 1], key);
      }
    }
  }

  /** A rethreaded chain is walked from the other end. */
  lemma {:induction false} RethreadedFirst<V>(fcn: HashFcn, c: seq<Entry<V>>, b: nat, m: nat, key: string)
    requires m >= 1 && fcn(key) % m == b
    ensures FirstWithKey(Rethreaded(fcn, c, b, m), key) == LastWithKey(c, key)
  {
    if c != [] {
      var e, front := c[|c| - 1], Rethreaded(fcn, c[..|c| - 1], b, m);
      RethreadedFirst(fcn, c[..|c| - 1], b, m, key);
      assert ([e] + front)[1..] == front && [] + front == front;
    }
  }

  /** The first and the last entry of a key are the same exactly when there is no second one. */
  lemma {:induction false} FirstIsLast<V>(c: seq<Entry<V>>, key: string)
    requires NoDup(c)
    ensures FirstWithKey(c, key) == LastWithKey(c, key)
            <==> forall x, y :: x in c && y in c && x.key == key && y.key == key ==> x == y
  {
    if c != [] {
      var tail := c[1..];
      FirstIsLast(tail, key);
      LastOfTail(c, key);
      LastWithKeyFinds(tail, key);
      assert c == [c[0]] + tail && c[0] !in tail;
    }
  }

  lemma {:induction false} LastOfTail<V>(c: seq<Entry<V>>, key: string)
    requires c != []
    ensures LastWithKey(c, key)
            == if LastWithKey(c[1..], key) != [] then LastWithKey(c[1..], key) else if c[0].key == key then [c[0]] else []
  {
    if |c| > 1 && c[|c| - 1].key != key {
      LastOfTail(c[..|c| - 1], key);
      assert c[1..][..|c| - 2] == c[..|c| - 1][1..];
    }
  }

  /** Expanding turns the chains around: a lookup then finds the entry of the key that was farthest
      down its chain. So the answer stays the same exactly when the key has no second entry. */
  lemma ExpandTurnsAround<V>(fcn: HashFcn, s: State<V>, key: string)
    requires WellFormed(fcn, s) && s.Table?
    ensures Shaped(s) && |s.chains| >= 1
    ensures Find(fcn, Expand(fcn, s), key) == LastWithKey(s.chains[fcn(key) % |s.chains|], key)
    ensures Find(fcn, Expand(fcn, s), key) == Find(fcn, s, key)
            <==> forall x, y :: x in s.items && y in s.items && x.key == key && y.key == key ==> x == y
  {
    var n := |s.chains|;
    var c := s.chains[fcn(key) % n];
    ModDouble(fcn(key), n);
    RethreadedFirst(fcn, c, fcn(key) % (2 * n), 2 * n, key);
    FirstIsLast(c, key);
    OneBucketPerKey(fcn, s.items, s.chains, key);
  }

  /** Without an expansion, a lookup finds the entry added last among those of its key, and an addition
      does not change the lookup of another key. */
  lemma AddFinds<V>(fcn: HashFcn, s: State<V>, e: Entry<V>, key: string)
    requires WellFormed(fcn, s) && e !in Items(s)
    requires s.Table? ==> |Add(fcn, s, e).chains| == |s.chains|
    ensures s.Table? ==> Shaped(s)
    ensures Find(fcn, Add(fcn, s, e), key) == if key == e.key then [e] else Find(fcn, s, key)
  {
    hide Sum, Lens;
    if s.NoTable? {
      FreshTableSum<V>();
    }
    var base := if s.NoTable? then FreshTable() else s;
    var b := Slot(fcn, e, |base.chains|);
    PrependFinds(e, base.chains[b], key);
  }

  lemma PrependFinds<V>(e: Entry<V>, c: seq<Entry<V>>, key: string)
    ensures FirstWithKey([e] + c, key) == if key == e.key then [e] else FirstWithKey(c, key)
  {
    assert ([e] + c)[1..] == c;
  }

  /** A deletion does not change the lookup of another key, nor that of its own when it finds another entry;
      and when it found the deleted one, it finds none exactly if there is no other. */
  lemma DeleteFinds<V>(fcn: HashFcn, s: State<V>, i: nat, key: string)
    requires WellFormed(fcn, s) && i < |Items(s)|
    ensures Shaped(s) && s.items[i] in s.chains[Slot(fcn, s.items[i], |s.chains|)]
    ensures Find(fcn, s, key) != [s.items[i]] ==> Find(fcn, Delete(fcn, s, i), key) == Find(fcn, s, key)
    ensures Find(fcn, s, key) == [s.items[i]] ==>
              (Find(fcn, Delete(fcn, s, i), key) == [] <==> forall j :: 0 <= j < |s.items| && j != i ==> s.items[j].key != key)
  {
    hide Sum, Lens, Find, Partition, Delete;
    EntryInChain(fcn, s.items, s.chains, i);
    DeleteWellFormed(fcn, s, i);
    FindRefinesScan(fcn, Delete(fcn, s, i), key);
    OthersLeft(s.items, i, key);
    if Find(fcn, s, key) != [s.items[i]] {
      OtherFoundStill(fcn, s, i, key);
    }
  }

  lemma OtherFoundStill<V>(fcn: HashFcn, s: State<V>, i: nat, key: string)
    requires WellFormed(fcn, s) && i < |Items(s)| && Shaped(s) && Find(fcn, s, key) != [s.items[i]]
    requires s.items[i] in s.chains[Slot(fcn, s.items[i], |s.chains|)]
    ensures Find(fcn, Delete(fcn, s, i), key) == Find(fcn, s, key)
  {
    hide Sum, Lens, FirstWithKey, Partition, WellFormed;
    if |s.items| == 1 {
      FindRefinesScan(fcn, s, key);
      OnlyOne(s.items, Find(fcn, s, key));
    } else {
      var c := s.chains[Slot(fcn, s.items[i], |s.chains|)];
      ChainNoDup(fcn, s);
      if fcn(key) % |s.chains| == Slot(fcn, s.items[i], |s.chains|) {
        WithoutFinds(c, IndexOf(c, s.items[i]), key);
      }
    }
  }

  lemma OnlyOne<V>(items: seq<Entry<V>>, found: seq<Entry<V>>)
    requires |items| == 1 && |found| <= 1 && forall e :: e in found ==> e in items
    ensures found == [] || found == [items[0]]
  {
    if |found| == 1 {
      assert found[0] in items && found == [found[0]];
    }
  }

  lemma ChainNoDup<V>(fcn: HashFcn, s: State<V>)
    requires WellFormed(fcn, s) && s.Table?
    ensures forall b :: 0 <= b < |s.chains| ==> NoDup(s.chains[b])
  {
  }

  lemma OthersLeft<V>(items: seq<Entry<V>>, i: nat, key: string)
    requires i < |items|
    ensures (forall e :: e in Without(items, i) ==> e.key != key)
            <==> forall j :: 0 <= j < |items| && j != i ==> items[j].key != key
  {
    var w := Without(items, i);
    WithoutAt(items, i);
    forall j | 0 <= j < |items| && j != i ensures items[j] in w {
      assert w[if j < i then j else j - 1] == items[j];
    }
  }

  lemma {:induction false} WithoutFinds<V>(c: seq<Entry<V>>, j: nat, key: string)
    requires j < |c| && NoDup(c) && FirstWithKey(c, key) != [c[j]]
    ensures FirstWithKey(Without(c, j), key) == FirstWithKey(c, key)
  {
    if j == 0 {
      assert Without(c, 0) == c[1..];
    } else {
      assert Without(c, j) == [c[0]] + Without(c[1..], j - 1);
      if c[0].key != key {
        WithoutFinds(c[1..], j - 1, key);
      }
    }
  }
}
