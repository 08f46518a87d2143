/**
 The Bellman backup `reward(current_state, action, gamma)`: look ahead along
 row `action` of `Q` (the chosen action doubles as the next state), take its
 maximum with a random tie-break, and overwrite `Q[current_state, action]`
 with the immediate reward plus the discounted maximum. The tie-break draw
 is an oracle argument `tie`, the index `np.random.choice` picks among the
 tied columns.
 */
module Bellman {
  import opened Indices
  import opened Tables

  /** `np.where(row == np.max(row))`: the columns where the row is maximal. */
  function MaxIndices(row: seq<real>): (ties: seq<nat>)
    requires |row| > 0
    ensures |ties| > 0
    ensures forall j: int :: j in ties <==> 0 <= j < |row| && row[j] == RowMax(row)
    ensures forall k :: 0 <= k < |ties| ==> ties[k] < |row|
    ensures StrictlyIncreasing(ties)
  {
    var m := RowMax(row);
    var ties := Where(row, x => x == m, 0);
    var j :| 0 <= j < |row| && row[j] == m;
    assert j in ties;
    ties
  }

  /** The tie-break draw is only made when more than one column ties, and
      then it picks one of them. */
  predicate ValidTie(row: seq<real>, tie: nat)
    requires |row| > 0
  {
    |MaxIndices(row)| > 1 ==> tie < |MaxIndices(row)|
  }

  /** `max_value`: the entry of the row at the column the tie-break picked.
      Whichever tied column is picked, it is the row's maximum. */
  function MaxValue(row: seq<real>, tie: nat): (v: real)
    requires |row| > 0 && ValidTie(row, tie)
    ensures v == RowMax(row)
    ensures forall j :: 0 <= j < |row| ==> row[j] <= v
  {
    var ties := MaxIndices(row);
    var col := if |ties| > 1 then ties[tie] else ties[0];
    assert col in ties;
    row[col]
  }

  /** The Bellman target: immediate reward plus the discounted best value
      of the next state. */
  function Target(reward: real, gamma: real, best: real): real {
    reward + gamma * best
  }

  /** `reward(s, a, gamma)`: one Bellman backup of the value table `q`. */
  function Update(r: Table, q: Table, s: int, a: int, gamma: real, tie: nat): (q': Table)
    requires WellFormed(r) && WellFormed(q) && 0 <= s < N && 0 <= a < N
    requires ValidTie(q[a], tie)
    ensures WellFormed(q')
    ensures q'[s][a] == Target(r[s][a], gamma, RowMax(q[a]))
    ensures forall i, j :: 0 <= i < N && 0 <= j < N && (i != s || j != a) ==> q'[i][j] == q[i][j]
  {
    var best := MaxValue(q[a], tie);
    Write(q, s, a, Target(r[s][a], gamma, best))
  }

  /** The table after a backup does not depend on which tied column the
      tie-break picked. */
  lemma TieBreakIrrelevant(r: Table, q: Table, s: int, a: int, gamma: real, t1: nat, t2: nat)
    requires WellFormed(r) && WellFormed(q) && 0 <= s < N && 0 <= a < N
    requires ValidTie(q[a], t1) && ValidTie(q[a], t2)
    ensures Update(r, q, s, a, gamma, t1) == Update(r, q, s, a, gamma, t2)
  {
  }

  /** Repeating the backup of a cell off the diagonal changes nothing: the
      row it looks ahead along is not the row it writes, so the target value
      is already in place. */
  lemma UpdateStableOffDiagonal(r: Table, q: Table, s: int, a: int, gamma: real, tie: nat)
    requires WellFormed(r) && WellFormed(q) && 0 <= s < N && 0 <= a < N && s != a
    requires ValidTie(q[a], tie)
    ensures ValidTie(Update(r, q, s, a, gamma, tie)[a], tie)
    ensures Update(r, Update(r, q, s, a, gamma, tie), s, a, gamma, tie) == Update(r, q, s, a, gamma, tie)
  {
    var q1 := Update(r, q, s, a, gamma, tie);
    assert q1[a] == q[a];
    var q2 := Update(r, q1, s, a, gamma, tie);
    assert q2[s][a] == q1[s][a];
    forall i | 0 <= i < N
      ensures q2[i] == q1[i]
    {
      assert forall j :: 0 <= j < N ==> q2[i][j] == q1[i][j];
    }
  }

  /** With non-negative rewards, a non-negative discount and a non-negative
      table, the backup keeps every entry non-negative. */
  lemma UpdatePreservesNonNegative(r: Table, q: Table, s: int, a: int, gamma: real, tie: nat)
    requires WellFormed(r) && WellFormed(q) && 0 <= s < N && 0 <= a < N
    requires ValidTie(q[a], tie)
    requires NonNegative(r) && NonNegative(q) && gamma >= 0.0
    ensures NonNegative(Update(r, q, s, a, gamma, tie))
  {
    var m := RowMax(q[a]);
    assert q[a][0] <= m;
    ProductNonNegative(gamma, m);
    var q' := Update(r, q, s, a, gamma, tie);
    assert q'[s][a] >= 0.0;
  }

  lemma ProductNonNegative(x: real, y: real)
    requires x >= 0.0 && y >= 0.0
    ensures x * y >= 0.0
  {
  }
  /** In a table of zeros every column of a row ties for the maximum. */
  lemma ZeroRowTies(a: int)
    requires 0 <= a < N
    ensures MaxIndices(Zeros()[a]) == [0, 1, 2, 3, 4, 5]
  {
    var row := Zeros()[a];
    assert |row| == N && forall j :: 0 <= j < N ==> row[j] == 0.0;
    var m := RowMax(row);
    assert m == 0.0;
    var ties := MaxIndices(row);
    var all: seq<nat> := [0, 1, 2, 3, 4, 5];
    forall v: int
      ensures v in all <==> v in ties
    {
      assert v in ties <==> 0 <= v < N;
    }
    IncreasingUnique(all, ties);
  }

  /** On the zero table the look-ahead term vanishes: the first backup of a
      cell writes just its immediate reward. */
  lemma UpdateOnZeros(r: Table, s: int, a: int, gamma: real, tie: nat)
    requires WellFormed(r) && 0 <= s < N && 0 <= a < N
    requires ValidTie(Zeros()[a], tie)
    ensures Update(r, Zeros(), s, a, gamma, tie)[s][a] == r[s][a]
  {
    var row := Zeros()[a];
    assert row[0] == 0.0;
    assert RowMax(row) == 0.0;
  }
}
