/** The progress of HASH_EXPAND_BUCKETS: what the new bucket array holds once the first `i` old
    chains and the first `j` items of chain `i` have been moved. */
module Rethreading {
  import opened Sums
  import opened BucketModel

  ghost predicate Placed<V>(fcn: HashFcn, chains: seq<seq<Entry<V>>>) {
    && |chains| >= 1
    && (forall b, j :: 0 <= b < |chains| && 0 <= j < |chains[b]| ==> Slot(fcn, chains[b][j], |chains|) == b)
    && (forall b :: 0 <= b < |chains| ==> NoDup(chains[b]))
  }

  lemma PartitionPlaces<V>(fcn: HashFcn, items: seq<Entry<V>>, chains: seq<seq<Entry<V>>>)
    requires Partition(fcn, items, chains)
    ensures Placed(fcn, chains)
    ensures forall b, j :: 0 <= b < |chains| && 0 <= j < |chains[b]| ==> chains[b][j] in items
  {
  }

  ghost predicate Cursor<V>(chains: seq<seq<Entry<V>>>, i: nat, j: nat) {
    |chains| >= 1 && ((i < |chains| && j <= |chains[i]|) || (i == |chains| && j == 0))
  }

  ghost function Moved<V>(fcn: HashFcn, chains: seq<seq<Entry<V>>>, i: nat, j: nat): (r: seq<seq<Entry<V>>>)
    requires Cursor(chains, i, j)
    ensures |r| == 2 * |chains|
  {
    var n := |chains|;
    seq(2 * n, b requires 0 <= b < 2 * n => MovedTo(fcn, chains, i, j, b))
  }

  ghost function MovedTo<V>(fcn: HashFcn, chains: seq<seq<Entry<V>>>, i: nat, j: nat, b: nat): seq<Entry<V>>
    requires Cursor(chains, i, j)
  {
    var a := b % |chains|;
    if a < i then Rethreaded(fcn, chains[a], b, 2 * |chains|)
    else if a == i then Rethreaded(fcn, chains[i][..j], b, 2 * |chains|)
    else []
  }

  lemma NothingMoved<V>(fcn: HashFcn, chains: seq<seq<Entry<V>>>)
    requires Cursor(chains, 0, 0)
    ensures Moved(fcn, chains, 0, 0) == seq(2 * |chains|, _ => [])
  {
  }

  lemma ChainMoved<V>(fcn: HashFcn, chains: seq<seq<Entry<V>>>, i: nat)
    requires |chains| >= 1 && i < |chains|
    ensures Moved(fcn, chains, i, |chains[i]|) == Moved(fcn, chains, i + 1, 0)
  {
    assert chains[i][..|chains[i]|] == chains[i];
    if i + 1 < |chains| {
      assert chains[i + 1][..0] == [];
    }
  }

  lemma AllMoved<V>(fcn: HashFcn, chains: seq<seq<Entry<V>>>)
    requires |chains| >= 1
    ensures Moved(fcn, chains, |chains|, 0) == SplitChains(fcn, chains)
  {
  }

  lemma OneMovedTo<V>(fcn: HashFcn, chains: seq<seq<Entry<V>>>, i: nat, j: nat, b: nat)
    requires Placed(fcn, chains) && i < |chains| && j < |chains[i]|
    ensures var e, d := chains[i][j], MovedTo(fcn, chains, i, j, b);
            MovedTo(fcn, chains, i, j + 1, b) == if b == Slot(fcn, e, 2 * |chains|) then [e] + d else d
  {
    var n, e := |chains|, chains[i][j];
    assert Slot(fcn, e, n) == i;
    SlotDouble(fcn, e, n);
    if b % n == i {
      var c := chains[i][..j + 1];
      assert c[|c| - 1] == e && c[..|c| - 1] == chains[i][..j];
    }
  }

  /** Moving one item pushes it on the front of its new chain and touches no other. */
  lemma OneMoved<V>(fcn: HashFcn, chains: seq<seq<Entry<V>>>, i: nat, j: nat)
    requires Placed(fcn, chains) && i < |chains| && j < |chains[i]|
    ensures var e, d := chains[i][j], Moved(fcn, chains, i, j);
            var b := Slot(fcn, e, 2 * |chains|);
            Moved(fcn, chains, i, j + 1) == d[b := [e] + d[b]]
  {
    forall b | 0 <= b < 2 * |chains|
      ensures var e, d := chains[i][j], MovedTo(fcn, chains, i, j, b);
              MovedTo(fcn, chains, i, j + 1, b) == if b == Slot(fcn, e, 2 * |chains|) then [e] + d else d
    {
      OneMovedTo(fcn, chains, i, j, b);
    }
  }

  lemma MovedMember<V>(fcn: HashFcn, chains: seq<seq<Entry<V>>>, i: nat, j: nat, b: nat, e: Entry<V>)
    requires Placed(fcn, chains) && Cursor(chains, i, j) && b < 2 * |chains|
    requires e in MovedTo(fcn, chains, i, j, b)
    ensures Slot(fcn, e, 2 * |chains|) == b
    ensures var a := b % |chains|;
            (a < i && e in chains[a]) || (a == i < |chains| && e in chains[i][..j])
  {
    var a := b % |chains|;
    RethreadedMember(fcn, if a < i then chains[a] else chains[i][..j], b, 2 * |chains|, e);
  }

  /** The chains built so far are disjoint from the item about to be moved. */
  lemma NotYetMoved<V>(fcn: HashFcn, chains: seq<seq<Entry<V>>>, i: nat, j: nat, b: nat)
    requires Placed(fcn, chains) && i < |chains| && j < |chains[i]| && b < 2 * |chains|
    ensures chains[i][j] !in Moved(fcn, chains, i, j)[b]
  {
    var e := chains[i][j];
    if e in MovedTo(fcn, chains, i, j, b) {
      MovedMember(fcn, chains, i, j, b, e);
    }
  }

  lemma MovedPlaced<V>(fcn: HashFcn, items: seq<Entry<V>>, chains: seq<seq<Entry<V>>>, i: nat, j: nat)
    requires Placed(fcn, chains) && Cursor(chains, i, j)
    requires forall b, j :: 0 <= b < |chains| && 0 <= j < |chains[b]| ==> chains[b][j] in items
    ensures Placed(fcn, Moved(fcn, chains, i, j))
    ensures var d := Moved(fcn, chains, i, j);
            forall b, k :: 0 <= b < |d| && 0 <= k < |d[b]| ==> d[b][k] in items
  {
    var d := Moved(fcn, chains, i, j);
    forall b, k | 0 <= b < |d| && 0 <= k < |d[b]|
      ensures Slot(fcn, d[b][k], |d|) == b && d[b][k] in items
    {
      MovedMember(fcn, chains, i, j, b, d[b][k]);
    }
    forall b | 0 <= b < |d| ensures NoDup(d[b]) {
      var a := b % |chains|;
      if a <= i < |chains| || a < i {
        RethreadedNoDup(fcn, if a < i then chains[a] else chains[i][..j], b, 2 * |chains|);
      }
    }
  }

  /** How one more item in bucket `b` changes the multipliers and the count of nonideal items. */
  lemma OneMoreCounted<V>(chains: seq<seq<Entry<V>>>, b: nat, e: Entry<V>, ideal: nat)
    requires b < |chains| && ideal >= 1
    ensures var d, c := chains[b := [e] + chains[b]], |chains[b]| + 1;
            && Mults(d, ideal) == Mults(chains, ideal)[b := if c > ideal then c / ideal else Mults(chains, ideal)[b]]
            && Sum(Excesses(d, ideal)) == Sum(Excesses(chains, ideal)) + (if c > ideal then 1 else 0)
  {
    var d := chains[b := [e] + chains[b]];
    SumUpdate(Excesses(chains, ideal), b, Excess(|chains[b]| + 1, ideal));
    assert Excesses(d, ideal) == Excesses(chains, ideal)[b := Excess(|chains[b]| + 1, ideal)];
  }
}
