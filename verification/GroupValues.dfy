/** The value of a group, the weight that leaves it, and what it means that groups cover a level. */
module GroupValues {
  import opened PartitionWeights
  import opened GroupEnumeration
  import opened GroupSelection

  function RowSum(row: seq<real>, t: nat): real
    requires t <= |row|
  {
    if t == 0 then 0.0 else RowSum(row, t - 1) + row[t - 1]
  }

  /** Weight of a row on the first c members of a group. */
  function Picked(row: seq<real>, g: Group, c: nat): real
    requires c <= |g| && forall j | 0 <= j < c :: g[j] < |row|
  {
    if c == 0 then 0.0 else Picked(row, g, c - 1) + row[g[c - 1]]
  }

  /** Weight of a row on the first t nodes outside a group. */
  function OutsideRow(row: seq<real>, g: Group, t: nat): real
    requires t <= |row|
  {
    if t == 0 then 0.0 else OutsideRow(row, g, t - 1) + if t - 1 in g then 0.0 else row[t - 1]
  }

  /** Weight between the first c members of a group and the nodes outside it. */
  function Leaving(mat: Matrix, g: Group, c: nat): real
    requires Square(mat, |mat|) && c <= |g| && forall j | 0 <= j < |g| :: g[j] < |mat|
  {
    if c == 0 then 0.0 else Leaving(mat, g, c - 1) + OutsideRow(mat[g[c - 1]], g, |mat|)
  }

  /** A row splits into the members of a group and the others. */
  lemma {:induction false} RowSplit(row: seq<real>, g: Group, n: nat, k: nat, t: nat, c: nat)
    requires GroupOk(g, n, 0, k) && t <= |row| && c <= k && n <= |row|
    requires (forall j | 0 <= j < c :: g[j] < t) && forall j | c <= j < k :: g[j] >= t
    ensures RowSum(row, t) == OutsideRow(row, g, t) + Picked(row, g, c)
    decreases t
  {
    if t > 0 {
      if c > 0 && g[c - 1] == t - 1 {
        RowSplit(row, g, n, k, t - 1, c - 1);
      } else {
        assert t - 1 !in g;
        RowSplit(row, g, n, k, t - 1, c);
      }
    }
  }

  ghost predicate RowSums(mat: Matrix, sumRow: seq<real>)
    requires Square(mat, |mat|)
  {
    |sumRow| == |mat| && forall v | 0 <= v < |mat| :: sumRow[v] == RowSum(mat[v], |mat|)
  }

  /** `eval_grouping`: row sums minus inner weights is the weight that leaves the group. */
  method EvalGrouping(mat: Matrix, sumRow: seq<real>, g: Group) returns (res: real)
    requires Square(mat, |mat|) && RowSums(mat, sumRow) && GroupOk(g, |mat|, 0, |g|)
    ensures res == Leaving(mat, g, |g|)
  {
    hide RowSum;
    res := 0.0;
    for i := 0 to |g|
      invariant res == Rows(sumRow, g, i)
    {
      res := res + sumRow[g[i]];
    }
    for i := 0 to |g|
      invariant res == Rows(sumRow, g, |g|) - Inner(mat, g, i)
    {
      for j := 0 to |g|
        invariant res == Rows(sumRow, g, |g|) - Inner(mat, g, i) - Picked(mat[g[i]], g, j)
      {
        res := res - mat[g[i]][g[j]];
      }
    }
    LeavingIs(mat, sumRow, g, |g|);
  }

  function Rows(sumRow: seq<real>, g: Group, c: nat): real
    requires c <= |g| && forall j | 0 <= j < c :: g[j] < |sumRow|
  {
    if c == 0 then 0.0 else Rows(sumRow, g, c - 1) + sumRow[g[c - 1]]
  }

  function Inner(mat: Matrix, g: Group, c: nat): real
    requires Square(mat, |mat|) && c <= |g| && forall j | 0 <= j < |g| :: g[j] < |mat|
  {
    if c == 0 then 0.0 else Inner(mat, g, c - 1) + Picked(mat[g[c - 1]], g, |g|)
  }

  lemma {:induction false} LeavingIs(mat: Matrix, sumRow: seq<real>, g: Group, c: nat)
    requires Square(mat, |mat|) && RowSums(mat, sumRow) && GroupOk(g, |mat|, 0, |g|) && c <= |g|
    ensures Leaving(mat, g, c) == Rows(sumRow, g, c) - Inner(mat, g, c)
  {
    if c > 0 {
      LeavingIs(mat, sumRow, g, c - 1);
      RowSplit(mat[g[c - 1]], g, |mat|, |g|, |mat|, |g|);
    }
  }

  /** m disjoint groups of k nodes below n: with n = m k, every node is in exactly one. */
  ghost predicate Covering(gs: seq<Group>, n: nat, k: nat, m: nat)
  {
    && |gs| == m && (forall i | 0 <= i < m :: GroupOk(gs[i], n, 0, k))
    && forall i, j | 0 <= i < j < m :: Disjoint(gs[j], gs[i])
  }

  lemma {:induction false} OutsideNonNegative(row: seq<real>, g: Group, t: nat)
    requires t <= |row| && forall j | 0 <= j < |row| :: row[j] >= 0.0
    ensures OutsideRow(row, g, t) >= 0.0
  {
    if t > 0 { OutsideNonNegative(row, g, t - 1); }
  }

  lemma {:induction false} LeavingNonNegative(mat: Matrix, g: Group, c: nat)
    requires Square(mat, |mat|) && NonNegative(mat, |mat|) && c <= |g| && forall j | 0 <= j < |g| :: g[j] < |mat|
    ensures Leaving(mat, g, c) >= 0.0
  {
    if c > 0 {
      LeavingNonNegative(mat, g, c - 1);
      OutsideNonNegative(mat[g[c - 1]], g, |mat|);
    }
  }

  /** Weight that leaves the first c groups. */
  function TotalLeaving(mat: Matrix, gs: seq<Group>, c: nat): real
    requires Square(mat, |mat|) && c <= |gs| && forall i, j | 0 <= i < |gs| && 0 <= j < |gs[i]| :: gs[i][j] < |mat|
  {
    if c == 0 then 0.0 else TotalLeaving(mat, gs, c - 1) + Leaving(mat, gs[c - 1], |gs[c - 1]|)
  }
}
