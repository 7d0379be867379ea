/** When a table grows: over whole runs, from the history of the chains alone. */
module GrowthPolicy {
  import opened Bits
  import opened Sums
  import opened BucketModel
  import opened LoadBound

  function CeilDiv(n: nat, m: nat): nat
    requires m >= 1
  {
    (n + m - 1) / m
  }

  /** The ideal chain length: what the longest chain would be if the items were spread evenly. */
  function Ideal<V>(s: State<V>): nat
    requires s.Table? && |s.chains| >= 1
  {
    CeilDiv(|s.items|, |s.chains|)
  }

  /** The positions in the chains from `d` on. */
  function Beyond<V>(chains: seq<seq<Entry<V>>>, d: nat): set<(int, int)> {
    set b, j | 0 <= b < |chains| && d <= j < |chains[b]| :: (b, j)
  }

  /** More than half of the items lie beyond the ideal chain length. */
  ghost predicate Crowded<V>(s: State<V>) {
    s.Table? && |s.chains| >= 1 && 2 * |Beyond(s.chains, Ideal(s))| > |s.items|
  }

  /** Step `k` of a history enlarges the bucket array of a table. */
  ghost predicate Expands<V>(states: seq<State<V>>, k: nat)
    requires k + 1 < |states|
  {
    states[k].Table? && states[k + 1].Table? && |states[k + 1].chains| != |states[k].chains|
  }

  /** The last step before state `k` that enlarged the table there, or -1 when the table has not grown
      since it was made. */
  ghost function LastExpansion<V>(states: seq<State<V>>, k: nat): (j: int)
    requires k < |states|
    ensures -1 <= j < k
    ensures j >= 0 ==> Expands(states, j)
  {
    if k == 0 || states[k].NoTable? || states[k - 1].NoTable? then -1
    else if Expands(states, k - 1) then k - 1
    else LastExpansion(states, k - 1)
  }

  /** The last expansion is the one after which the table neither grew nor went. */
  lemma {:induction false} LastExpansionIs<V>(states: seq<State<V>>, k: nat, j: nat)
    requires j < k < |states|
    ensures LastExpansion(states, k) == j
            <==> Expands(states, j) && forall i :: j < i <= k ==> states[i].Table? && (i < k ==> !Expands(states, i))
  {
    if states[k].Table? && states[k - 1].Table? && !Expands(states, k - 1) && j < k - 1 {
      LastExpansionIs(states, k - 1, j);
    }
  }

  /** The last two expansions of the table were both to no avail. */
  ghost predicate Inhibited<V>(states: seq<State<V>>, k: nat)
    requires k < |states|
  {
    var j := LastExpansion(states, k);
    j >= 0 && Crowded(states[j + 1]) && CrowdedLast(states, j)
  }

  /** The last expansion before state `k` was to no avail. */
  ghost predicate CrowdedLast<V>(states: seq<State<V>>, k: nat)
    requires k < |states|
  {
    var i := LastExpansion(states, k);
    i >= 0 && Crowded(states[i + 1])
  }

  /** How many items make bucket `b` full: ten, and as many tens more as its chain was ideal lengths long
      right after the last expansion, if it was longer than one. */
  ghost function Quota<V>(states: seq<State<V>>, k: nat, b: nat): nat
    requires k < |states|
  {
    var j := LastExpansion(states, k);
    if j < 0 then 10 else 10 * (1 + Times(states[j + 1], b))
  }

  ghost function Times<V>(s: State<V>, b: nat): nat {
    if s.Table? && b < |s.chains| && |s.chains[b]| > Ideal(s) > 0 then |s.chains[b]| / Ideal(s) else 0
  }

  // ----- counting by position -------------------------------------------------------------------------

  function Row(b: nat, d: nat, n: nat): (r: set<(int, int)>)
    ensures forall p :: p in r <==> p.0 == b && d <= p.1 < n
    decreases n
  {
    if n <= d then {} else Row(b, d, n - 1) + {(b, n - 1)}
  }

  lemma {:induction false} RowCount(b: nat, d: nat, n: nat)
    ensures |Row(b, d, n)| == Excess(n, d)
    decreases n
  {
    if n > d {
      RowCount(b, d, n - 1);
    }
  }

  /** The sum of the excesses counts the items beyond `d`. */
  lemma {:induction false} BeyondCount<V>(chains: seq<seq<Entry<V>>>, d: nat)
    ensures |Beyond(chains, d)| == Sum(Excesses(chains, d))
  {
    hide Row, Sum;
    if chains == [] {
      assert Beyond(chains, d) == {};
      SumZeros(Excesses(chains, d));
    } else {
      var last := |chains| - 1;
      var init := chains[..last];
      BeyondCount(init, d);
      RowCount(last, d, |chains[last]|);
      assert Beyond(chains, d) == Beyond(init, d) + Row(last, d, |chains[last]|);
      assert Beyond(init, d) !! Row(last, d, |chains[last]|);
      var x := Excess(|chains[last]|, d);
      assert Excesses(chains, d) == Excesses(init, d) + [x];
      SumConcat(Excesses(init, d), [x]);
      SumOfOne(x);
    }
  }

  lemma SumOfOne(x: nat)
    ensures Sum([x]) == x
  {
    assert [x][1..] == [];
  }

  lemma IdealIsCeilDiv(n: nat, lb: nat)
    ensures IdealChainMaxlen(n, lb) == CeilDiv(n, Pow2(lb + 1))
  {
    IdealIsCeiling(n, lb);
    CeilDivIs(n, Pow2(lb + 1), IdealChainMaxlen(n, lb));
  }

  lemma CeilDivIs(n: nat, m: nat, d: nat)
    requires m >= 1 && n <= d * m && (n > 0 ==> d >= 1 && (d - 1) * m < n) && (n == 0 ==> d == 0)
    ensures CeilDiv(n, m) == d
  {
    assert n > 0 ==> (d - 1) * m == d * m - m;
    DivModUnique(n + m - 1, m, d, n + m - 1 - d * m);
  }

  // ----- one step -------------------------------------------------------------------------------------

  /** The judgement that an expansion passes on itself. */
  lemma ExpandJudged<V>(fcn: HashFcn, s: State<V>)
    requires WellFormed(fcn, s) && s.Table?
    ensures var r := Expand(fcn, s);
            && |r.chains| == 2 * |s.chains| && r.items == s.items
            && r.ineff == (if Crowded(r) then s.ineff + 1 else 0) && r.noexpand == (s.noexpand || r.ineff > 1)
            && forall b :: 0 <= b < |r.chains| ==> r.mults[b] == Times(r, b)
  {
    var r := Expand(fcn, s);
    IdealIsCeilDiv(|s.items|, s.lb);
    IdealIsCeiling(|s.items|, s.lb);
    BeyondCount(r.chains, r.ideal);
  }

  /** What a call does to the shape of a table and to its counters. */
  lemma AddStep<V>(fcn: HashFcn, s: State<V>, e: Entry<V>)
    requires WellFormed(fcn, s) && s.Table? && e !in s.items
    ensures var r, b := Add(fcn, s, e), Slot(fcn, e, |s.chains|);
            if |s.chains[b]| + 1 >= (s.mults[b] + 1) * 10 && !s.noexpand then
              && |r.chains| == 2 * |s.chains| && r.noexpand == (r.ineff > 1)
              && r.ineff == (if Crowded(r) then s.ineff + 1 else 0)
              && forall b :: 0 <= b < |r.chains| ==> r.mults[b] == Times(r, b)
            else |r.chains| == |s.chains| && r.mults == s.mults && r.ineff == s.ineff && r.noexpand == s.noexpand
  {
    hide Sum, Pow2, Partition, Lens, Crowded, Times;
    PushWellFormed(fcn, s, e);
    ExpandJudged(fcn, Push(fcn, s, e));
  }

  lemma FirstStep<V>(fcn: HashFcn, e: Entry<V>)
    ensures var r := Add(fcn, NoTable, e);
            && r.Table? && |r.chains| == |r.mults| == 32 && r.ineff == 0 && !r.noexpand
            && forall b :: 0 <= b < 32 ==> r.mults[b] == 0
  {
    assert Pow2(5) == 32;
  }

  // ----- whole runs -----------------------------------------------------------------------------------

  /** The counters of a state, as its history has them. */
  ghost predicate CountersKept<V>(states: seq<State<V>>, k: nat)
    requires k < |states| && states[k].Table?
  {
    var s := states[k];
    && |s.chains| == |s.mults|
    && s.noexpand == Inhibited(states, k) == (s.ineff > 1)
    && (s.ineff >= 1 <==> CrowdedLast(states, k))
    && forall b :: 0 <= b < |s.mults| ==> 10 * (1 + s.mults[b]) == Quota(states, k, b)
  }

  lemma FreshCounters<V>(states: seq<State<V>>, k: nat)
    requires 0 < k < |states| && states[k - 1].NoTable? && states[k].Table?
    requires var r := states[k];
             && |r.chains| == |r.mults| && r.ineff == 0 && !r.noexpand && forall b :: 0 <= b < |r.mults| ==> r.mults[b] == 0
    ensures CountersKept(states, k)
  {
  }

  lemma SameCounters<V>(states: seq<State<V>>, k: nat)
    requires 0 < k < |states| && states[k - 1].Table? && states[k].Table? && CountersKept(states, k - 1)
    requires var s, r := states[k - 1], states[k];
             |r.chains| == |s.chains| && r.mults == s.mults && r.ineff == s.ineff && r.noexpand == s.noexpand
    ensures CountersKept(states, k)
  {
    hide Crowded, Times;
    assert LastExpansion(states, k) == LastExpansion(states, k - 1);
  }

  lemma GrownCounters<V>(states: seq<State<V>>, k: nat)
    requires 0 < k < |states| && states[k - 1].Table? && states[k].Table? && CountersKept(states, k - 1)
    requires var s, r := states[k - 1], states[k];
             && !s.noexpand && |r.chains| != |s.chains| && |r.chains| == |r.mults| && r.noexpand == (r.ineff > 1)
             && r.ineff == (if Crowded(r) then s.ineff + 1 else 0)
             && forall b :: 0 <= b < |r.mults| ==> r.mults[b] == Times(r, b)
    ensures CountersKept(states, k)
  {
    hide Crowded, Times;
    assert LastExpansion(states, k) == k - 1;
  }

  lemma DeleteStep<V>(fcn: HashFcn, s: State<V>, i: nat)
    requires WellFormed(fcn, s) && i < |Items(s)| && s.Table?
    ensures s.items[i] in s.chains[Slot(fcn, s.items[i], |s.chains|)]
    ensures var r := Delete(fcn, s, i); r.Table? ==>
              |r.chains| == |s.chains| && r.mults == s.mults && r.ineff == s.ineff && r.noexpand == s.noexpand
  {
  }

  lemma {:induction false} CountersInRun<V>(fcn: HashFcn, ops: seq<Op<V>>, states: seq<State<V>>, k: nat)
    requires Run(fcn, ops, states) && k <= |ops| && states[k].Table?
    ensures CountersKept(states, k)
  {
    hide WellFormed, Loaded, Crowded, Times, CountersKept, LastExpansion, Add, Delete;
    RunInvariant(fcn, ops, states, k - 1);
    RunInvariant(fcn, ops, states, k);
    var s, r := states[k - 1], states[k];
    TableShaped(fcn, r);
    if s.NoTable? {
      FirstStep(fcn, ops[k - 1].e);
      FreshCounters(states, k);
    } else {
      CountersInRun(fcn, ops, states, k - 1);
      TableShaped(fcn, s);
      match ops[k - 1] {
        case AddOp(e) =>
          AddStep(fcn, s, e);
          if |r.chains| == |s.chains| { SameCounters(states, k); } else { GrownCounters(states, k); }
        case DeleteOp(i) =>
          DeleteStep(fcn, s, i);
          SameCounters(states, k);
      }
    }
  }

  lemma TableShaped<V>(fcn: HashFcn, s: State<V>)
    requires WellFormed(fcn, s) && s.Table?
    ensures |s.chains| == |s.mults| >= 1
  {
  }

  /** A table is made with 32 buckets, and grows by doubling, exactly when an addition fills its bucket to
      the quota that the last expansion left it and the last two expansions were not both to no avail. */
  lemma ExpandsExactly<V>(fcn: HashFcn, ops: seq<Op<V>>, states: seq<State<V>>, k: nat)
    requires Run(fcn, ops, states) && k < |ops|
    ensures states[k].NoTable? && states[k + 1].Table? ==> |states[k + 1].chains| == 32
    ensures Expands(states, k) ==> |states[k + 1].chains| == 2 * |states[k].chains|
    ensures Expands(states, k) ==> ops[k].AddOp?
    ensures states[k].Table? ==> |states[k].chains| >= 1
    ensures states[k].Table? && ops[k].AddOp? ==>
              var b := fcn(ops[k].e.key) % |states[k].chains|;
              Expands(states, k) <==> !Inhibited(states, k) && |states[k].chains[b]| + 1 >= Quota(states, k, b)
  {
    hide WellFormed, Loaded, Crowded, Times, Inhibited, Quota, Add, Delete;
    RunInvariant(fcn, ops, states, k);
    RunInvariant(fcn, ops, states, k + 1);
    var s := states[k];
    if s.Table? {
      TableShaped(fcn, s);
      CountersInRun(fcn, ops, states, k);
      match ops[k] {
        case AddOp(e) => AddStep(fcn, s, e);
        case DeleteOp(i) => DeleteStep(fcn, s, i);
      }
    } else {
      FirstStep(fcn, ops[k].e);
    }
  }

  /** Expansion is inhibited in a state exactly when the last two expansions of the table left more than half
      of the items beyond the ideal chain length. It comes to be inhibited in a step exactly when that
      step is the second such expansion in a row. */
  lemma InhibitedExactly<V>(fcn: HashFcn, ops: seq<Op<V>>, states: seq<State<V>>, k: nat)
    requires Run(fcn, ops, states) && k < |ops| && states[k + 1].Table?
    ensures states[k + 1].noexpand <==> Inhibited(states, k + 1)
    ensures states[k + 1].noexpand && !(states[k].Table? && states[k].noexpand)
            <==> Expands(states, k) && Crowded(states[k + 1]) && CrowdedLast(states, k)
  {
    hide WellFormed, Loaded, Crowded;
    CountersInRun(fcn, ops, states, k + 1);
    if Expands(states, k) {
      ExpandsExactly(fcn, ops, states, k);
      CountersInRun(fcn, ops, states, k);
    } else if states[k].Table? {
      CountersInRun(fcn, ops, states, k);
    }
  }

  /** An expansion that leaves at most half of the items beyond the ideal restarts the count: the next one
      does not inhibit. */
  lemma GoodExpansionRestarts<V>(fcn: HashFcn, ops: seq<Op<V>>, states: seq<State<V>>, k: nat)
    requires Run(fcn, ops, states) && k < |ops| && Expands(states, k) && !Crowded(states[k + 1])
    ensures states[k + 1].ineff == 0 && states[k + 1].noexpand == states[k].noexpand
  {
    hide WellFormed, Loaded, Crowded;
    ExpandsExactly(fcn, ops, states, k);
    CountersInRun(fcn, ops, states, k);
    CountersInRun(fcn, ops, states, k + 1);
  }
}
