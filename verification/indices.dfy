/**
 Index-level helpers shared by the action sampler and the Bellman update:
 the column search that `np.where` performs on one matrix row, and the
 integer sum that `action_choice` branches on.
 */
module Indices {

  /** Each index is larger than the one before it (so there are no duplicates). */
  predicate StrictlyIncreasing(xs: seq<nat>) {
    forall i, j :: 0 <= i < j < |xs| ==> xs[i] < xs[j]
  }

  /** The column indices `j >= from` of `row` whose entry satisfies `p`, in
      increasing order: the second component of `np.where(p(row))` on a
      one-row matrix. */
  function Where(row: seq<real>, p: real -> bool, from: nat): (idx: seq<nat>)
    requires from <= |row|
    ensures forall j: int :: j in idx <==> from <= j < |row| && p(row[j])
    ensures forall k :: 0 <= k < |idx| ==> from <= idx[k] < |row|
    ensures StrictlyIncreasing(idx)
    decreases |row| - from
  {
    if from == |row| then []
    else if p(row[from]) then [from] + Where(row, p, from + 1)
    else Where(row, p, from + 1)
  }

  /** Two strictly increasing sequences holding the same elements are equal:
      membership and order determine such a sequence completely. */
  lemma {:induction false} IncreasingUnique(xs: seq<nat>, ys: seq<nat>)
    requires StrictlyIncreasing(xs) && StrictlyIncreasing(ys)
    requires forall v: int :: v in xs <==> v in ys
    ensures xs == ys
    decreases |xs|
  {
    if |ys| > 0 {
      assert ys[0] in ys;
    }
    if |xs| > 0 {
      assert xs[0] in ys;
      assert ys[0] in xs;
      assert |ys| > 0;
      var i :| 0 <= i < |ys| && ys[i] == xs[0];
      var j :| 0 <= j < |xs| && xs[j] == ys[0];
      assert xs[0] <= xs[j];
      assert ys[0] <= ys[i];
      assert xs[0] == ys[0];
      var xt, yt := xs[1..], ys[1..];
      forall v: int
        ensures v in xt <==> v in yt
      {
        if v in xt {
          var k :| 0 <= k < |xt| && xt[k] == v;
          assert xs[k + 1] == v && xs[0] < v;
          assert v in ys;
          var m :| 0 <= m < |ys| && ys[m] == v;
          assert m != 0;
          assert yt[m - 1] == v;
        }
        if v in yt {
          var k :| 0 <= k < |yt| && yt[k] == v;
          assert ys[k + 1] == v && ys[0] < v;
          assert v in xs;
          var m :| 0 <= m < |xs| && xs[m] == v;
          assert m != 0;
          assert xt[m - 1] == v;
        }
      }
      IncreasingUnique(xt, yt);
      assert xs == [xs[0]] + xt;
      assert ys == [ys[0]] + yt;
    }
  }

  /** Python's `sum` over a list of indices. */
  function Sum(xs: seq<nat>): nat {
    if |xs| == 0 then 0 else xs[0] + Sum(xs[1..])
  }

  /** A list of indices sums to zero exactly when every index in it is 0. */
  lemma {:induction false} SumZeroIff(xs: seq<nat>)
    ensures Sum(xs) == 0 <==> forall k :: 0 <= k < |xs| ==> xs[k] == 0
    decreases |xs|
  {
    if |xs| > 0 {
      SumZeroIff(xs[1..]);
      assert forall k :: 1 <= k < |xs| ==> xs[1..][k - 1] == xs[k];
    }
  }
}
