/** The matrix-filling loop of `kendall_rank_correlation`: a 4-by-4 table whose
    upper triangle, diagonal included, comes from a pairwise statistic of the
    four ranked show lists and whose lower triangle mirrors it. The statistic
    (scipy's Kendall tau) is a parameter. */
module Correlation {

  /** The four rankings in the order the source lists them: item-item,
      user-user, ItemKNN, WRMF. */
  function RecommendTypes(itemItem: seq<nat>, userUser: seq<nat>, itemKnn: seq<nat>, wrmf: seq<nat>): (l: seq<seq<nat>>)
    ensures |l| == 4
    ensures l[0] == itemItem && l[1] == userUser && l[2] == itemKnn && l[3] == wrmf
  {
    [itemItem, userUser, itemKnn, wrmf]
  }

  /** The entry at (r, s) of the filled table: `tau` of the pair ordered so the
      smaller index comes first. */
  function Entry(l: seq<seq<nat>>, tau: (seq<nat>, seq<nat>) -> real, r: nat, s: nat): (e: real)
    requires r < |l| && s < |l|
  {
    if r <= s then tau(l[r], l[s]) else tau(l[s], l[r])
  }

  /** The first `rows` rows of `c` hold their entries, and each of the first
      `cols` entries of row `rows` does too. */
  predicate FilledUpTo(c: seq<seq<real>>, l: seq<seq<nat>>, tau: (seq<nat>, seq<nat>) -> real, rows: nat, cols: nat)
    requires |l| == 4
  {
    && rows <= 4 && cols <= 4
    && |c| == 4 && (forall r :: 0 <= r < 4 ==> |c[r]| == 4)
    && (forall r, s :: 0 <= r < rows && 0 <= s < 4 ==> c[r][s] == Entry(l, tau, r, s))
    && (rows < 4 ==> forall s :: 0 <= s < cols ==> c[rows][s] == Entry(l, tau, rows, s))
  }

  /** Lines 63-70: fill row by row; on or above the diagonal evaluate `tau`, below
      it copy the already filled mirror entry. */
  method KendallRankCorrelation(itemItem: seq<nat>, userUser: seq<nat>, itemKnn: seq<nat>, wrmf: seq<nat>,
                                tau: (seq<nat>, seq<nat>) -> real)
    returns (c: seq<seq<real>>)
    ensures |c| == 4 && forall i :: 0 <= i < 4 ==> |c[i]| == 4
    ensures var l := RecommendTypes(itemItem, userUser, itemKnn, wrmf);
      forall i, j :: 0 <= i <= j < 4 ==> c[i][j] == tau(l[i], l[j])
    ensures forall i, j :: 0 <= i < 4 && 0 <= j < 4 ==> c[i][j] == c[j][i]
    ensures (forall x, y :: tau(x, y) == tau(y, x)) ==>
      var l := RecommendTypes(itemItem, userUser, itemKnn, wrmf);
      forall i, j :: 0 <= i < 4 && 0 <= j < 4 ==> c[i][j] == tau(l[i], l[j])
  {
    var l := RecommendTypes(itemItem, userUser, itemKnn, wrmf);
    var zeros := [0.0, 0.0, 0.0, 0.0];
    c := [zeros, zeros, zeros, zeros];
    var i := 0;
    while i < 4
      invariant 0 <= i <= 4
      invariant FilledUpTo(c, l, tau, i, 0)
    {
      var j := 0;
      while j < 4
        invariant 0 <= j <= 4
        invariant FilledUpTo(c, l, tau, i, j)
      {
        if j >= i {
          c := c[i := c[i][j := tau(l[i], l[j])]];
        } else {
          c := c[i := c[i][j := c[j][i]]];
        }
        j := j + 1;
      }
      i := i + 1;
    }
    FilledIsMirrored(c, l, tau);
  }

  lemma FilledIsMirrored(c: seq<seq<real>>, l: seq<seq<nat>>, tau: (seq<nat>, seq<nat>) -> real)
    requires |l| == 4 && FilledUpTo(c, l, tau, 4, 0)
    ensures forall i, j :: 0 <= i <= j < 4 ==> c[i][j] == tau(l[i], l[j])
    ensures forall i, j :: 0 <= i < 4 && 0 <= j < 4 ==> c[i][j] == c[j][i]
    ensures (forall x, y :: tau(x, y) == tau(y, x)) ==>
      forall i, j :: 0 <= i < 4 && 0 <= j < 4 ==> c[i][j] == tau(l[i], l[j])
  {
  }
}
