/** The two score-matrix builders. The cosine similarity matrix the source
    obtains from sklearn is an input here: any square matrix of the right size. */
module Recommend {
  import opened Matrices

  /** A similarity matrix is square and symmetric, as cosine similarity is. */
  predicate IsSimilarity(s: Matrix, n: nat) {
    IsMatrix(s, n, n) && forall i, j :: 0 <= i < n && 0 <= j < n ==> s[i][j] == s[j][i]
  }

  /** Item-item scores: the users-by-items interactions times the items-by-items
      similarity, so user u's score for item i weighs each of u's interactions
      with item t by the similarity of t and i. */
  function ItemItemRecommend(userShows: Matrix, items: nat, itemSim: Matrix): (r: Matrix)
    requires IsMatrix(userShows, |userShows|, items) && IsMatrix(itemSim, items, items)
    ensures IsMatrix(r, |userShows|, items)
    ensures forall u, i :: 0 <= u < |userShows| && 0 <= i < items ==>
      r[u][i] == Dot(userShows[u], Column(itemSim, i))
  {
    MatMul(userShows, itemSim, items, items)
  }

  /** User-user scores: the users-by-users similarity times the interactions, so
      user u's score for item i weighs each user v's interaction with i by the
      similarity of u and v. */
  function UserUserRecommend(userShows: Matrix, items: nat, userSim: Matrix): (r: Matrix)
    requires IsMatrix(userShows, |userShows|, items) && IsMatrix(userSim, |userShows|, |userShows|)
    ensures IsMatrix(r, |userShows|, items)
    ensures forall u, i :: 0 <= u < |userShows| && 0 <= i < items ==>
      r[u][i] == Dot(userSim[u], Column(userShows, i))
  {
    MatMul(userSim, userShows, |userShows|, items)
  }

  /** When every item is similar only to itself, item-item scores are the interactions. */
  lemma ItemItemIdentity(userShows: Matrix, items: nat)
    requires IsMatrix(userShows, |userShows|, items)
    ensures ItemItemRecommend(userShows, items, Identity(items)) == userShows
  {
    MatMulIdentityRight(userShows, items);
  }

  /** When every user is similar only to itself, user-user scores are the interactions. */
  lemma UserUserIdentity(userShows: Matrix, items: nat)
    requires IsMatrix(userShows, |userShows|, items)
    ensures UserUserRecommend(userShows, items, Identity(|userShows|)) == userShows
  {
    MatMulIdentityLeft(userShows, |userShows|, items);
  }

  lemma SymmetricTranspose(s: Matrix, n: nat)
    requires IsSimilarity(s, n)
    ensures Transpose(s, n, n) == s
  {
    var t := Transpose(s, n, n);
    forall j | 0 <= j < n ensures t[j] == s[j] {
      forall i | 0 <= i < n ensures t[j][i] == s[j][i] {
      }
    }
  }

  /** The two strategies are one computation seen from two sides: item-item
      scores are the transpose of user-user scores computed on the transposed
      (items-by-users) matrix with the same symmetric similarity. */
  lemma ItemItemIsTransposedUserUser(userShows: Matrix, items: nat, itemSim: Matrix)
    requires IsMatrix(userShows, |userShows|, items) && IsSimilarity(itemSim, items)
    ensures Transpose(ItemItemRecommend(userShows, items, itemSim), |userShows|, items)
         == UserUserRecommend(Transpose(userShows, |userShows|, items), |userShows|, itemSim)
  {
    MatMulTranspose(userShows, itemSim, items, items);
    SymmetricTranspose(itemSim, items);
  }

  /** Non-negative interactions and similarities give non-negative scores. */
  lemma RecommendNonNegative(userShows: Matrix, items: nat, itemSim: Matrix, userSim: Matrix)
    requires IsMatrix(userShows, |userShows|, items)
    requires IsMatrix(itemSim, items, items) && IsMatrix(userSim, |userShows|, |userShows|)
    requires forall u, i :: 0 <= u < |userShows| && 0 <= i < items ==> 0.0 <= userShows[u][i]
    requires forall i, j :: 0 <= i < items && 0 <= j < items ==> 0.0 <= itemSim[i][j]
    requires forall u, v :: 0 <= u < |userShows| && 0 <= v < |userShows| ==> 0.0 <= userSim[u][v]
    ensures forall u, i :: 0 <= u < |userShows| && 0 <= i < items ==>
      0.0 <= ItemItemRecommend(userShows, items, itemSim)[u][i] &&
      0.0 <= UserUserRecommend(userShows, items, userSim)[u][i]
  {
    MatMulNonNegative(userShows, itemSim, items, items);
    MatMulNonNegative(userSim, userShows, |userShows|, items);
  }
}
