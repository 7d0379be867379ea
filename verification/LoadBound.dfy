/** Whole runs of additions and deletions: every reachable table is well formed, and as long as
    expansion has not been inhibited the growth policy bounds the chains and the load. */
module LoadBound {
  import opened Bits
  import opened Sums
  import opened BucketModel

  datatype Op<V> = AddOp(e: Entry<V>) | DeleteOp(i: nat)

  ghost predicate Enabled<V>(s: State<V>, op: Op<V>) {
    match op
    case AddOp(e) => e !in Items(s)
    case DeleteOp(i) => i < |Items(s)|
  }

  /** One call by a client that never adds a linked entry nor deletes an unlinked one. */
  ghost function Step<V>(fcn: HashFcn, s: State<V>, op: Op<V>): (r: State<V>)
    requires WellFormed(fcn, s) && Enabled(s, op)
    ensures WellFormed(fcn, r)
  {
    match op
    case AddOp(e) => AddWellFormed(fcn, s, e); Add(fcn, s, e)
    case DeleteOp(i) => DeleteWellFormed(fcn, s, i); Delete(fcn, s, i)
  }

  /** `states` is the history of a run from the null head through `ops`. Nothing is said of what would follow
      a table that is not well formed; `RunInvariant` shows that no run comes to one. */
  ghost predicate Run<V>(fcn: HashFcn, ops: seq<Op<V>>, states: seq<State<V>>) {
    && |states| == |ops| + 1 && states[0] == NoTable
    && forall k :: 0 <= k < |ops| ==>
         && Enabled(states[k], ops[k])
         && (WellFormed(fcn, states[k]) ==> states[k + 1] == Step(fcn, states[k], ops[k]))
  }

  // ----- the load invariant ----------------------------------------------------------------------

  function Limit(mult: nat): nat { (mult + 1) * BKT_CAPACITY_THRESH }

  /** A bucket's multiplier, plus one when the bucket is full to its limit. */
  function Weight(count: nat, mult: nat): nat {
    mult + (if count == Limit(mult) then 1 else 0)
  }

  function Weights<V>(chains: seq<seq<Entry<V>>>, mults: seq<nat>): (r: seq<nat>)
    requires |chains| == |mults|
    ensures |r| == |chains|
  {
    seq(|chains|, i requires 0 <= i < |chains| => Weight(|chains[i]|, mults[i]))
  }

  ghost predicate WithinLimits<V>(s: State<V>)
    requires Shaped(s)
  {
    forall b :: 0 <= b < |s.chains| ==> |s.chains[b]| <= Limit(s.mults[b])
  }

  ghost predicate Loaded<V>(s: State<V>) {
    s.Table? && !s.noexpand ==>
      Shaped(s) && WithinLimits(s) && Sum(Weights(s.chains, s.mults)) <= |s.chains|
  }

  /** The invariant caps the average load at 19 and hence the next ideal chain length at 10. */
  lemma LoadedCapsItems<V>(fcn: HashFcn, s: State<V>)
    requires WellFormed(fcn, s) && Loaded(s) && s.Table? && !s.noexpand
    ensures |s.items| <= 19 * |s.chains|
    ensures IdealChainMaxlen(|s.items| + 1, s.lb) <= BKT_CAPACITY_THRESH
  {
    SumBelow(Lens(s.chains), Weights(s.chains, s.mults));
    NextIdeal(|s.items|, s.lb);
  }

  lemma NextIdeal(n: nat, lb: nat)
    requires n <= 19 * Pow2(lb)
    ensures IdealChainMaxlen(n + 1, lb) <= BKT_CAPACITY_THRESH
  {
    IdealIsCeiling(n + 1, lb);
    var d := IdealChainMaxlen(n + 1, lb);
    if d > 10 {
      MulMono(10, d - 1, Pow2(lb + 1));
    }
  }

  /** A freshly rethreaded bucket weighs no more than its share of the ideal length. */
  lemma WeightAfterExpand(count: nat, ideal: nat)
    requires 1 <= ideal <= BKT_CAPACITY_THRESH
    ensures count <= Limit(Mult(count, ideal))
    ensures ideal * Weight(count, Mult(count, ideal)) <= count
  {
    var q := count / ideal;
    if count > ideal {
      assert ideal * q <= count < ideal * q + ideal;
      QuotientWeight(count, ideal, q);
    } else {
      assert Mult(count, ideal) == 0;
    }
  }

  lemma QuotientWeight(count: nat, ideal: nat, q: nat)
    requires 1 <= ideal <= BKT_CAPACITY_THRESH && ideal * q <= count < ideal * q + ideal
    ensures count < Limit(q) && Weight(count, q) == q
  {
    MulMono(ideal, BKT_CAPACITY_THRESH, q + 1);
    assert ideal * (q + 1) == ideal * q + ideal;
  }

  lemma ExpandLoaded<V>(fcn: HashFcn, s: State<V>)
    requires WellFormed(fcn, s) && s.Table?
    requires IdealChainMaxlen(|s.items|, s.lb) <= BKT_CAPACITY_THRESH
    ensures Loaded(Expand(fcn, s))
  {
    var r := Expand(fcn, s);
    IdealIsCeiling(|s.items|, s.lb);
    ExpandWellFormed(fcn, s);
    BucketsAfterExpand(r.chains, r.mults, r.ideal);
    CancelFactor(Sum(Weights(r.chains, r.mults)), |r.chains|, r.ideal);
  }

  lemma BucketsAfterExpand<V>(chains: seq<seq<Entry<V>>>, mults: seq<nat>, ideal: nat)
    requires 1 <= ideal <= BKT_CAPACITY_THRESH && mults == Mults(chains, ideal)
    ensures forall b :: 0 <= b < |chains| ==> |chains[b]| <= Limit(mults[b])
    ensures ideal * Sum(Weights(chains, mults)) <= Sum(Lens(chains))
  {
    var ws := Weights(chains, mults);
    forall b | 0 <= b < |chains|
      ensures |chains[b]| <= Limit(mults[b]) && ideal * ws[b] <= Lens(chains)[b]
    {
      WeightAfterExpand(|chains[b]|, ideal);
    }
    SumScaled(ws, Lens(chains), ideal);
  }

  lemma CancelFactor(x: nat, y: nat, d: nat)
    requires d >= 1 && d * x <= d * y
    ensures x <= y
  {
    if x > y {
      MulMono(y + 1, x, d);
    }
  }

  /** An addition that does not expand leaves its bucket strictly below the limit. */
  lemma PushLoaded<V>(fcn: HashFcn, s: State<V>, e: Entry<V>)
    requires Shaped(s) && Loaded(s)
    requires var p := Push(fcn, s, e); !MustExpand(p, Slot(fcn, e, |p.chains|))
    ensures Loaded(Push(fcn, s, e))
  {
    if !s.noexpand {
      var b, p := Slot(fcn, e, |s.chains|), Push(fcn, s, e);
      var ws := Weights(s.chains, s.mults);
      SumUpdate(ws, b, s.mults[b]);
      assert Weights(p.chains, p.mults) == ws[b := s.mults[b]];
    }
  }

  lemma AddLoaded<V>(fcn: HashFcn, s: State<V>, e: Entry<V>)
    requires WellFormed(fcn, s) && Loaded(s) && e !in Items(s)
    ensures Loaded(Add(fcn, s, e))
  {
    var base := if s.NoTable? then FreshTable() else s;
    if s.NoTable? {
      FreshLoaded<V>();
      FreshTableSum<V>();
      NextIdeal(0, base.lb);
    } else if !s.noexpand {
      LoadedCapsItems(fcn, s);
    }
    PushWellFormed(fcn, base, e);
    var p := Push(fcn, base, e);
    if MustExpand(p, Slot(fcn, e, |p.chains|)) {
      ExpandLoaded(fcn, p);
    } else {
      PushLoaded(fcn, base, e);
    }
  }

  lemma FreshLoaded<V>()
    ensures Loaded(FreshTable<V>())
  {
    var s := FreshTable<V>();
    SumZeros(Weights(s.chains, s.mults));
  }

  lemma DeleteLoaded<V>(fcn: HashFcn, s: State<V>, i: nat)
    requires WellFormed(fcn, s) && Loaded(s) && i < |Items(s)|
    ensures Loaded(Delete(fcn, s, i))
  {
    var r := Delete(fcn, s, i);
    if r.Table? && !s.noexpand {
      var b := Slot(fcn, s.items[i], |s.chains|);
      ShorterChainLoaded(s.chains, s.mults, b, r.chains[b]);
    }
  }

  /** A chain that loses its surplus item is no longer full to its limit. */
  lemma ShorterChainLoaded<V>(chains: seq<seq<Entry<V>>>, mults: seq<nat>, b: nat, c: seq<Entry<V>>)
    requires |chains| == |mults| && b < |chains| && |c| < |chains[b]| <= Limit(mults[b])
    ensures Sum(Weights(chains[b := c], mults)) <= Sum(Weights(chains, mults))
  {
    var ws := Weights(chains, mults);
    SumUpdate(ws, b, mults[b]);
    assert Weights(chains[b := c], mults) == ws[b := mults[b]];
  }

  // ----- main results ----------------------------------------------------------------------------

  lemma {:induction false} RunInvariant<V>(fcn: HashFcn, ops: seq<Op<V>>, states: seq<State<V>>, k: nat)
    requires Run(fcn, ops, states) && k <= |ops|
    ensures WellFormed(fcn, states[k]) && Loaded(states[k])
  {
    if k > 0 {
      RunInvariant(fcn, ops, states, k - 1);
      match ops[k - 1]
      case AddOp(e) => AddLoaded(fcn, states[k - 1], e);
      case DeleteOp(i) => DeleteLoaded(fcn, states[k - 1], i);
    }
  }

  /** In every state of every run, while `noexpand` is unset: no chain is longer than ten times one
      more than its multiplier, there are at most nineteen items a bucket, and the ideal chain
      length of an expansion forced by the next addition is at most ten. */
  lemma LoadBoundHolds<V>(fcn: HashFcn, ops: seq<Op<V>>, states: seq<State<V>>, k: nat)
    requires Run(fcn, ops, states) && k <= |ops| && states[k].Table? && !states[k].noexpand
    ensures var s := states[k];
            && Shaped(s)
            && (forall b :: 0 <= b < |s.chains| ==> |s.chains[b]| <= 10 * (s.mults[b] + 1))
            && |s.items| <= 19 * |s.chains|
            && IdealChainMaxlen(|s.items| + 1, s.lb) <= 10
  {
    RunInvariant(fcn, ops, states, k);
    LoadedCapsItems(fcn, states[k]);
  }

  /** After any run, looking a key up in its bucket finds an entry exactly when one is live. */
  lemma FindAfterRun<V>(fcn: HashFcn, ops: seq<Op<V>>, states: seq<State<V>>, k: nat, key: string)
    requires Run(fcn, ops, states) && k <= |ops|
    ensures states[k].NoTable? || Shaped(states[k])
    ensures Find(fcn, states[k], key) != [] <==> exists e :: e in Items(states[k]) && e.key == key
    ensures forall e :: e in Find(fcn, states[k], key) ==> e in Items(states[k]) && e.key == key
  {
    RunInvariant(fcn, ops, states, k);
    FindRefinesScan(fcn, states[k], key);
  }

  /** Once inhibited, expansion stays inhibited until the table empties and is freed. */
  lemma NoExpandIsSticky<V>(fcn: HashFcn, s: State<V>, op: Op<V>)
    requires WellFormed(fcn, s) && Enabled(s, op) && s.Table? && s.noexpand
    ensures var r := Step(fcn, s, op);
            r.NoTable? || (r.noexpand && |r.chains| == |s.chains|)
  {
  }
}
