/**
 The two N×N matrices of the script: the reward matrix `R` and the value
 table `Q`. Actions and states share one index space, so both are square.
 */
module Tables {

  /** Number of states (and of actions): the shape of `R` and `Q`. */
  const N: nat := 6

  type Table = seq<seq<real>>

  /** An N×N matrix. */
  predicate WellFormed(t: Table) {
    |t| == N && forall i :: 0 <= i < |t| ==> |t[i]| == N
  }

  predicate NonNegative(t: Table)
    requires WellFormed(t)
  {
    forall i, j :: 0 <= i < N && 0 <= j < N ==> t[i][j] >= 0.0
  }

  /** `np.zeros([6, 6])`: the value table before any update. */
  function Zeros(): (t: Table)
    ensures WellFormed(t)
    ensures forall i, j :: 0 <= i < N && 0 <= j < N ==> t[i][j] == 0.0
  {
    seq(N, _ => seq(N, _ => 0.0))
  }

  /** `Q[s, a] = v`: overwrite one cell, leaving every other cell as it was. */
  function Write(t: Table, s: int, a: int, v: real): (t': Table)
    requires WellFormed(t) && 0 <= s < N && 0 <= a < N
    ensures WellFormed(t')
    ensures t'[s][a] == v
    ensures forall i, j :: 0 <= i < N && 0 <= j < N && (i != s || j != a) ==> t'[i][j] == t[i][j]
  {
    t[s := t[s][a := v]]
  }

  /** `np.max` of a row: an entry of the row that no entry exceeds. */
  function RowMax(row: seq<real>): (m: real)
    requires |row| > 0
    ensures m in row
    ensures forall j :: 0 <= j < |row| ==> row[j] <= m
  {
    if |row| == 1 then row[0]
    else
      var rest := RowMax(row[1..]);
      assert forall j :: 1 <= j < |row| ==> row[j] == row[1..][j - 1];
      if row[0] >= rest then row[0] else rest
  }
}
