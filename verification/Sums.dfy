/** Sums of sequences of numbers, and membership facts about sequences without repetition. */
module Sums {

  function Sum(xs: seq<nat>): nat {
    if xs == [] then 0 else xs[0] + Sum(xs[1..])
  }

  lemma SumConcat(xs: seq<nat>, ys: seq<nat>)
    ensures Sum(xs + ys) == Sum(xs) + Sum(ys)
  {
    if xs == [] {
      assert xs + ys == ys;
    } else {
      SumConcat(xs[1..], ys);
      assert (xs + ys)[1..] == xs[1..] + ys;
    }
  }

  lemma SumUpdate(xs: seq<nat>, i: nat, v: nat)
    requires i < |xs|
    ensures Sum(xs[i := v]) == Sum(xs) - xs[i] + v
  {
    if i == 0 {
      assert xs[0 := v][1..] == xs[1..];
    } else {
      SumUpdate(xs[1..], i - 1, v);
      assert xs[i := v][1..] == xs[1..][i - 1 := v];
    }
  }

  /** Splitting every element in two and laying the halves side by side keeps the sum. */
  lemma SumSplit(xs: seq<nat>, lo: seq<nat>, hi: seq<nat>)
    requires |xs| == |lo| == |hi|
    requires forall i :: 0 <= i < |xs| ==> xs[i] == lo[i] + hi[i]
    ensures Sum(lo + hi) == Sum(xs)
  {
    SumConcat(lo, hi);
    if xs != [] {
      SumSplit(xs[1..], lo[1..], hi[1..]);
      SumConcat(lo[1..], hi[1..]);
    }
  }

  /** If every `d * ws[i]` is at most `xs[i]`, the same holds of the sums. */
  lemma SumScaled(ws: seq<nat>, xs: seq<nat>, d: nat)
    requires |ws| == |xs|
    requires forall i :: 0 <= i < |ws| ==> d * ws[i] <= xs[i]
    ensures d * Sum(ws) <= Sum(xs)
  {
    if ws != [] {
      SumScaled(ws[1..], xs[1..], d);
      assert d * (ws[0] + Sum(ws[1..])) == d * ws[0] + d * Sum(ws[1..]);
    }
  }

  /** If every `xs[i]` is at most `9 + 10 * ws[i]`, so is the whole sum, bucket by bucket. */
  lemma SumBelow(xs: seq<nat>, ws: seq<nat>)
    requires |ws| == |xs|
    requires forall i :: 0 <= i < |xs| ==> xs[i] <= 9 + 10 * ws[i]
    ensures Sum(xs) <= 9 * |xs| + 10 * Sum(ws)
  {
    if xs != [] {
      SumBelow(xs[1..], ws[1..]);
    }
  }

  lemma Associate<T>(x: seq<T>, y: seq<T>, z: seq<T>)
    ensures (x + y) + z == x + (y + z)
  {
  }

  function Reversed<T>(s: seq<T>): (r: seq<T>)
    ensures |r| == |s|
  {
    seq(|s|, i requires 0 <= i < |s| => s[|s| - 1 - i])
  }

  lemma ReversedAppend<T>(s: seq<T>, x: T)
    ensures Reversed(s + [x]) == [x] + Reversed(s)
  {
  }

  lemma ReversedPrepend<T>(x: T, s: seq<T>)
    ensures Reversed([x] + s) == Reversed(s) + [x]
  {
  }

  ghost predicate NoDup<T>(s: seq<T>) {
    forall i, j :: 0 <= i < j < |s| ==> s[i] != s[j]
  }

  function Without<T>(s: seq<T>, i: nat): (r: seq<T>)
    requires i < |s|
    ensures |r| == |s| - 1
  {
    s[..i] + s[i + 1..]
  }

  lemma WithoutAt<T>(s: seq<T>, i: nat)
    requires i < |s|
    ensures forall k :: 0 <= k < |s| - 1 ==> Without(s, i)[k] == s[if k < i then k else k + 1]
  {
  }

  lemma WithoutMember<T>(s: seq<T>, i: nat, x: T)
    requires i < |s| && NoDup(s)
    ensures x in Without(s, i) <==> x in s && x != s[i]
  {
    var w := Without(s, i);
    if x in s && x != s[i] {
      var j :| 0 <= j < |s| && s[j] == x;
      assert x == w[if j < i then j else j - 1];
    }
  }

  lemma WithoutKeepsTheRest<T>(s: seq<T>, i: nat)
    requires i < |s| && NoDup(s)
    ensures NoDup(Without(s, i))
    ensures forall x :: x in Without(s, i) <==> x in s && x != s[i]
  {
    var w := Without(s, i);
    forall x | x in s && x != s[i] ensures x in w {
      var j :| 0 <= j < |s| && s[j] == x;
      assert x == w[if j < i then j else j - 1];
    }
  }
}
