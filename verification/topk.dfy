/** `find_top_k_shows`: pick k candidate shows of one user's score row with
    numpy's `argpartition`, pair each with its score, and sort the pairs by
    score, highest first. */
module TopK {
  import opened Results
  import opened Ranking

  /** One recommended show and its score. */
  datatype Scored = Scored(show: nat, score: real)

  function Shows(r: seq<Scored>): (s: seq<nat>)
    ensures |s| == |r| && forall i :: 0 <= i < |r| ==> s[i] == r[i].show
  {
    seq(|r|, i requires 0 <= i < |r| => r[i].show)
  }

  /** Python's `min` on two sizes. */
  function Min(a: nat, b: nat): (m: nat)
    ensures m <= a && m <= b && (m == a || m == b)
  {
    if a < b then a else b
  }

  /** The size of the candidate pool: the whole row when `firstN` is falsy
      (`None` or 0), otherwise the row sliced to its first `firstN` entries. */
  function CandidateCount(rowLength: nat, firstN: Option<nat>): (n: nat)
    ensures n <= rowLength
    ensures firstN.None? || firstN.value == 0 ==> n == rowLength
    ensures firstN.Some? && firstN.value > 0 ==> n <= firstN.value && (n == firstN.value || n == rowLength)
  {
    if firstN.None? || firstN.value == 0 then rowLength else Min(firstN.value, rowLength)
  }

  /** What numpy promises of `argpartition(-row[:cand], kth)`: a rearrangement of
      the candidate indices that puts at position `kth` the index it would have
      in a descending sort, with no lower score before it and no higher score
      after it. Nothing is promised about the order within either side. */
  predicate IsArgPartition(row: seq<real>, cand: nat, kth: nat, p: seq<nat>)
    requires cand <= |row|
  {
    && multiset(p) == multiset(Range(cand))
    && Below(p, cand)
    && kth < |p|
    && (forall i :: 0 <= i < kth ==> row[p[i]] >= row[p[kth]])
    && (forall i :: kth < i < |p| ==> row[p[i]] <= row[p[kth]])
  }

  /** What a top-k list over the first `cand` entries of `row` is: k pairs of
      distinct candidate shows with their own scores, highest score first, and
      no show left out scores higher than one taken. */
  predicate IsTopK(row: seq<real>, cand: nat, k: nat, r: seq<Scored>)
    requires cand <= |row|
  {
    && |r| == k
    && Distinct(Shows(r)) && Below(Shows(r), cand)
    && (forall i :: 0 <= i < |r| ==> r[i].score == row[r[i].show])
    && (forall i, j :: 0 <= i < j < |r| ==> r[i].score >= r[j].score)
    && (forall i, j :: 0 <= i < |r| && 0 <= j < cand && j !in Shows(r) ==> r[i].score >= row[j])
  }

  /** Lines 24-28 for a given partition `p`: keep its first k indices, pair each
      with its score, and sort the pairs by score, highest first. Whatever
      admissible partition numpy returns, the outcome is a top-k list. */
  function TopKFrom(row: seq<real>, cand: nat, k: nat, p: seq<nat>): (r: seq<Scored>)
    requires cand <= |row| && k < cand
    requires IsArgPartition(row, cand, k, p)
    ensures IsTopK(row, cand, k, r)
    ensures multiset(Shows(r)) == multiset(p[..k])
  {
    var chosen := SortDesc(row, p[..k]);
    var r := Pair(row, chosen);
    ShowsPair(row, chosen);
    assert Below(chosen, cand) by {
      forall i | 0 <= i < k ensures chosen[i] < cand {
        assert chosen[i] in multiset(p[..k]);
      }
    }
    TopKFromIsTopK(row, cand, k, p, chosen, r);
    r
  }

  lemma TopKFromIsTopK(row: seq<real>, cand: nat, k: nat, p: seq<nat>, chosen: seq<nat>, r: seq<Scored>)
    requires cand <= |row| && k < cand
    requires IsArgPartition(row, cand, k, p)
    requires |chosen| == k && multiset(chosen) == multiset(p[..k])
    requires Below(chosen, cand) && ByScoreDesc(row, chosen)
    requires |r| == k && Shows(r) == chosen
    requires forall i :: 0 <= i < k ==> r[i].score == row[chosen[i]]
    ensures IsTopK(row, cand, k, r)
  {
    ChosenDistinct(cand, k, p, chosen);
    forall i | 0 <= i < k ensures r[i].show < cand && r[i].score == row[r[i].show] {
      assert r[i].show == chosen[i];
    }
    forall i, j | 0 <= i < j < k ensures r[i].show != r[j].show {
      assert r[i].show == chosen[i] && r[j].show == chosen[j];
    }
    forall i, j | 0 <= i < j < k ensures r[i].score >= r[j].score {
      assert r[i].show == chosen[i] && r[j].show == chosen[j];
    }
    forall i, j | 0 <= i < k && 0 <= j < cand && j !in chosen
      ensures r[i].score >= row[j]
    {
      ChosenDominates(row, cand, k, p, chosen, i, j);
    }
  }

  lemma ChosenDistinct(cand: nat, k: nat, p: seq<nat>, chosen: seq<nat>)
    requires k <= |p| && multiset(p) == multiset(Range(cand))
    requires multiset(chosen) == multiset(p[..k])
    ensures Distinct(chosen)
  {
    RangeDistinct(cand);
    PermutationKeepsDistinct(Range(cand), p);
    assert Distinct(p[..k]);
    PermutationKeepsDistinct(p[..k], chosen);
  }

  /** A chosen show scores at least as high as any candidate left out. */
  lemma ChosenDominates(row: seq<real>, cand: nat, k: nat, p: seq<nat>, chosen: seq<nat>, i: nat, j: nat)
    requires cand <= |row| && k < cand
    requires IsArgPartition(row, cand, k, p)
    requires multiset(chosen) == multiset(p[..k]) && Below(chosen, cand)
    requires i < |chosen| && j < cand && j !in chosen
    ensures row[chosen[i]] >= row[j]
  {
    assert chosen[i] in multiset(chosen);
    assert chosen[i] in p[..k];
    var s :| 0 <= s < k && p[..k][s] == chosen[i];
    assert row[chosen[i]] >= row[p[k]];
    assert j in multiset(Range(cand)) by {
      assert Range(cand)[j] == j;
    }
    assert j in p;
    var t :| 0 <= t < |p| && p[t] == j;
    assert j !in multiset(p[..k]);
    forall s | 0 <= s < k ensures p[s] != j {
      assert p[s] == p[..k][s];
    }
    assert k <= t;
  }

  /** The one admissible partition this model fixes for numpy's: every
      candidate index in descending score order, ties by ascending index. It is
      admissible for every kth. */
  function ArgPartition(row: seq<real>, cand: nat): (p: seq<nat>)
    requires cand <= |row|
    ensures Below(p, cand)
    ensures forall kth: nat :: kth < cand ==> IsArgPartition(row, cand, kth, p)
    ensures ByScoreDesc(row, p) && TiesAscending(row, p)
  {
    RangeDistinct(cand);
    SortDescTiesAscending(row, Range(cand));
    var p := SortDesc(row, Range(cand));
    SortedRangeIsArgPartition(row, cand, p);
    p
  }

  lemma SortedRangeIsArgPartition(row: seq<real>, cand: nat, p: seq<nat>)
    requires cand <= |row| && Below(p, |row|)
    requires multiset(p) == multiset(Range(cand)) && ByScoreDesc(row, p)
    ensures Below(p, cand)
    ensures forall kth: nat :: kth < cand ==> IsArgPartition(row, cand, kth, p)
  {
    assert |p| == cand by {
      assert |multiset(p)| == |multiset(Range(cand))|;
    }
    forall i | 0 <= i < |p| ensures p[i] < cand {
      assert p[i] in multiset(Range(cand));
    }
    forall kth: nat | kth < cand ensures IsArgPartition(row, cand, kth, p) {
    }
  }

  /** `find_top_k_shows(user, k, recommend_matrix, first_n_shows_consider)`.
      Indexing a missing row raises `IndexError`; `argpartition` raises
      `ValueError` unless k is below the candidate count. */
  function FindTopKShows(m: seq<seq<real>>, user: nat, k: nat, firstN: Option<nat>): (r: Result<seq<Scored>>)
    ensures user >= |m| ==> r == Err(IndexOutOfRange(user, |m|))
    ensures user < |m| && k >= CandidateCount(|m[user]|, firstN) ==>
      r == Err(KthOutOfBounds(k, CandidateCount(|m[user]|, firstN)))
    ensures user < |m| && k < CandidateCount(|m[user]|, firstN) ==>
      r.Ok? && IsTopK(m[user], CandidateCount(|m[user]|, firstN), k, r.value)
  {
    if user >= |m| then Err(IndexOutOfRange(user, |m|))
    else
      var cand := CandidateCount(|m[user]|, firstN);
      if k >= cand then Err(KthOutOfBounds(k, cand))
      else
        TopKOfIsTopKFrom(m[user], cand, k);
        Ok(TopKOf(m[user], cand, k))
  }

  /** The top-k list of one row under the fixed partition: the top-(k - 1)
      list followed by the k-th ranked candidate and its score. */
  function TopKOf(row: seq<real>, cand: nat, k: nat): (r: seq<Scored>)
    requires cand <= |row| && k < cand
    ensures r == Pair(row, ArgPartition(row, cand)[..k])
    decreases k
  {
    if k == 0 then []
    else
      var p := ArgPartition(row, cand);
      TopKOf(row, cand, k - 1) + [Scored(p[k - 1], row[p[k - 1]])]
  }

  /** Lines 24-28 run on the fixed partition give exactly the fixed top-k
      list, so it is a top-k list. */
  lemma TopKOfIsTopKFrom(row: seq<real>, cand: nat, k: nat)
    requires cand <= |row| && k < cand
    ensures TopKOf(row, cand, k) == TopKFrom(row, cand, k, ArgPartition(row, cand))
    ensures IsTopK(row, cand, k, TopKOf(row, cand, k))
  {
    TopKFromRanked(row, cand, k, ArgPartition(row, cand));
  }

  /** Pairs each show with its score. */
  function Pair(row: seq<real>, shows: seq<nat>): (r: seq<Scored>)
    requires Below(shows, |row|)
    ensures |r| == |shows|
    ensures forall i :: 0 <= i < |r| ==> r[i].show == shows[i] && r[i].score == row[shows[i]]
  {
    seq(|shows|, i requires 0 <= i < |shows| => Scored(shows[i], row[shows[i]]))
  }

  lemma ShowsPair(row: seq<real>, shows: seq<nat>)
    requires Below(shows, |row|)
    ensures Shows(Pair(row, shows)) == shows
  {
  }

  lemma PairPrefix(row: seq<real>, shows: seq<nat>, k: nat)
    requires Below(shows, |row|) && k <= |shows|
    ensures Pair(row, shows)[..k] == Pair(row, shows[..k])
  {
  }

  /** For a partition that is ranked throughout, the top-k list is its first k
      indices with their scores: the final sort changes nothing. */
  lemma TopKFromRanked(row: seq<real>, cand: nat, k: nat, p: seq<nat>)
    requires cand <= |row| && k < cand
    requires IsArgPartition(row, cand, k, p) && ByScoreDesc(row, p)
    ensures TopKFrom(row, cand, k, p) == Pair(row, p[..k])
  {
    assert ByScoreDesc(row, p[..k]);
    SortDescIdentity(row, p[..k]);
  }

  /** Ties in the top-k list come out by ascending show index. */
  lemma TopKOfTiesAscending(row: seq<real>, cand: nat, k: nat)
    requires cand <= |row| && k < cand
    ensures Shows(TopKOf(row, cand, k)) == ArgPartition(row, cand)[..k]
    ensures TiesAscending(row, Shows(TopKOf(row, cand, k)))
  {
    var p := ArgPartition(row, cand);
    ShowsPair(row, p[..k]);
    assert TiesAscending(row, p[..k]);
  }

  /** Growing k only appends shows: the top-k list is a prefix of the
      top-k' list for k <= k'. */
  lemma TopKOfNested(row: seq<real>, cand: nat, k: nat, k': nat)
    requires cand <= |row| && k <= k' < cand
    ensures TopKOf(row, cand, k) == TopKOf(row, cand, k')[..k]
  {
    var p := ArgPartition(row, cand);
    PairPrefix(row, p[..k'], k);
    assert p[..k'][..k] == p[..k];
  }

  lemma ShowsSnoc(b: seq<Scored>, k: nat)
    requires |b| == k + 1
    ensures Shows(b) == Shows(b[..k]) + [b[k].show]
  {
  }

  /** Going from k to k + 1 appends exactly one show. */
  lemma TopKOfNext(row: seq<real>, cand: nat, k: nat)
    requires cand <= |row| && k + 1 < cand
    ensures Shows(TopKOf(row, cand, k + 1)) == Shows(TopKOf(row, cand, k)) + [TopKOf(row, cand, k + 1)[k].show]
  {
    var b := TopKOf(row, cand, k + 1);
    TopKOfNested(row, cand, k, k + 1);
    ShowsSnoc(b, k);
  }

  /** FindTopKShows with the fixed partition: the shows are a prefix of one
      ranking of the candidates, ties by ascending index. */
  lemma FindTopKShowsPrefix(m: seq<seq<real>>, user: nat, k: nat, firstN: Option<nat>)
    requires FindTopKShows(m, user, k, firstN).Ok?
    ensures user < |m| && k < CandidateCount(|m[user]|, firstN)
    ensures Shows(FindTopKShows(m, user, k, firstN).value)
         == ArgPartition(m[user], CandidateCount(|m[user]|, firstN))[..k]
    ensures TiesAscending(m[user], Shows(FindTopKShows(m, user, k, firstN).value))
  {
    TopKOfTiesAscending(m[user], CandidateCount(|m[user]|, firstN), k);
  }

  /** FindTopKShows for a smaller k returns a prefix of the result for a
      larger k. */
  lemma FindTopKShowsNested(m: seq<seq<real>>, user: nat, k: nat, k': nat, firstN: Option<nat>)
    requires k <= k'
    requires FindTopKShows(m, user, k', firstN).Ok?
    ensures FindTopKShows(m, user, k, firstN).Ok?
    ensures FindTopKShows(m, user, k, firstN).value == FindTopKShows(m, user, k', firstN).value[..k]
  {
    TopKOfNested(m[user], CandidateCount(|m[user]|, firstN), k, k');
  }

  /** FindTopKShows for k + 1 appends exactly one show to the result for k. */
  lemma FindTopKShowsNext(m: seq<seq<real>>, user: nat, k: nat, firstN: Option<nat>)
    requires FindTopKShows(m, user, k + 1, firstN).Ok?
    ensures FindTopKShows(m, user, k, firstN).Ok?
    ensures |FindTopKShows(m, user, k + 1, firstN).value| == k + 1
    ensures Shows(FindTopKShows(m, user, k + 1, firstN).value)
         == Shows(FindTopKShows(m, user, k, firstN).value) + [FindTopKShows(m, user, k + 1, firstN).value[k].show]
  {
    TopKOfNext(m[user], CandidateCount(|m[user]|, firstN), k);
  }

  /** No two candidate shows have the same score. */
  predicate NoTies(row: seq<real>, cand: nat)
    requires cand <= |row|
  {
    forall i, j :: 0 <= i < j < cand ==> row[i] != row[j]
  }

  /** Without ties a top-k list is unique: the partition numpy picks cannot
      change the outcome of `find_top_k_shows`. */
  lemma TopKUniqueWithoutTies(row: seq<real>, cand: nat, k: nat, a: seq<Scored>, b: seq<Scored>)
    requires cand <= |row| && NoTies(row, cand)
    requires IsTopK(row, cand, k, a) && IsTopK(row, cand, k, b)
    ensures a == b
  {
    forall t | 0 <= t < k && AgreeBelow(a, b, t) ensures a[t] == b[t] {
      Outranks(row, cand, k, a, b, t);
      Outranks(row, cand, k, b, a, t);
    }
    AgreeUpTo(a, b, k);
  }

  /** The two lists agree on their first t entries. */
  predicate AgreeBelow(a: seq<Scored>, b: seq<Scored>, t: nat)
    requires t <= |a| && t <= |b|
  {
    forall s :: 0 <= s < t ==> a[s] == b[s]
  }

  /** Two lists that agree at each index once they agree before it agree
      everywhere. */
  lemma {:induction false} AgreeUpTo(a: seq<Scored>, b: seq<Scored>, t: nat)
    requires t <= |a| && t <= |b|
    requires forall u :: 0 <= u < t && AgreeBelow(a, b, u) ==> a[u] == b[u]
    ensures AgreeBelow(a, b, t)
  {
    if t > 0 {
      AgreeUpTo(a, b, t - 1);
    }
  }

  /** Where two top-k lists first differ, the second one's show scores strictly
      higher than the first one's. */
  lemma Outranks(row: seq<real>, cand: nat, k: nat, a: seq<Scored>, b: seq<Scored>, t: nat)
    requires cand <= |row| && NoTies(row, cand)
    requires IsTopK(row, cand, k, a) && IsTopK(row, cand, k, b)
    requires t < k && AgreeBelow(a, b, t)
    ensures a[t] == b[t] || row[a[t].show] < row[b[t].show]
  {
    var x := a[t].show;
    var y := b[t].show;
    if x != y {
      assert row[x] != row[y];
      forall s | 0 <= s < t ensures b[s].show != x {
        assert b[s] == a[s];
      }
      if x in Shows(b) {
        var s :| 0 <= s < k && Shows(b)[s] == x;
        assert t < s;
        assert b[t].score >= b[s].score;
      } else {
        assert b[t].score >= row[x];
      }
    }
  }

  /** Without ties, the top-k list is the first k entries of any top-k' list
      for k <= k', whatever partitions produced the two. */
  lemma NestedWithoutTies(row: seq<real>, cand: nat, k: nat, k': nat, a: seq<Scored>, b: seq<Scored>)
    requires cand <= |row| && NoTies(row, cand) && k <= k' < cand
    requires IsTopK(row, cand, k, a) && IsTopK(row, cand, k', b)
    ensures a == b[..k]
  {
    TopKOfIsTopKFrom(row, cand, k);
    TopKOfIsTopKFrom(row, cand, k');
    TopKUniqueWithoutTies(row, cand, k, a, TopKOf(row, cand, k));
    TopKUniqueWithoutTies(row, cand, k', b, TopKOf(row, cand, k'));
    TopKOfNested(row, cand, k, k');
  }

  /** With ties, nesting depends on the partition: when shows 0, 1 and 2 tie
      above show 3, two partitions numpy may return for kth = 1 and kth = 2
      give a top-1 show that the top-2 list leaves out. */
  lemma TiedPartitionsNotNested(row: seq<real>, q: seq<nat>, p: seq<nat>)
    requires TiedRow(row) && q == [0, 1, 2, 3] && p == [1, 2, 0, 3]
    ensures IsArgPartition(row, 4, 1, q) && IsArgPartition(row, 4, 2, p)
    ensures Shows(TopKFrom(row, 4, 1, q)) == [0]
    ensures 0 !in Shows(TopKFrom(row, 4, 2, p))
  {
    RangeFour();
    TiedTopOne(row, q);
    TiedTopTwo(row, p);
    OnlyShow(Shows(TopKFrom(row, 4, 1, q)), q, 1);
    assert p[..2] == [1, 2];
    ShowsOutside(Shows(TopKFrom(row, 4, 2, p)), p[..2], 0);
  }

  /** Four scores where the first three tie above the last. */
  predicate TiedRow(row: seq<real>) {
    |row| == 4 && row[0] == row[1] == row[2] && row[3] < row[0]
  }

  lemma TiedTopOne(row: seq<real>, q: seq<nat>)
    requires TiedRow(row) && q == [0, 1, 2, 3] && Range(4) == q
    ensures IsArgPartition(row, 4, 1, q)
  {
  }

  lemma TiedTopTwo(row: seq<real>, p: seq<nat>)
    requires TiedRow(row) && p == [1, 2, 0, 3] && Range(4) == [0, 1, 2, 3]
    ensures IsArgPartition(row, 4, 2, p)
  {
    RotatedRange(p);
    assert p[2] == 0 && row[p[0]] == row[p[1]] == row[0] && row[p[3]] < row[0];
  }

  /** [1, 2, 0, 3] rearranges the candidates 0 to 3. */
  lemma RotatedRange(p: seq<nat>)
    requires p == [1, 2, 0, 3] && Range(4) == [0, 1, 2, 3]
    ensures multiset(p) == multiset(Range(4))
  {
    var a: seq<nat>, b: seq<nat>, c: seq<nat> := [1, 2], [0], [3];
    assert p == a + b + c && Range(4) == b + a + c;
    assert multiset(a + b) == multiset(a) + multiset(b) == multiset(b + a);
  }

  lemma RangeFour()
    ensures Range(4) == [0, 1, 2, 3]
  {
    assert Range(4)[0] == 0 && Range(4)[1] == 1 && Range(4)[2] == 2 && Range(4)[3] == 3;
  }

  /** A one-element list holding the same shows as `p[..1]` is `p[..1]`. */
  lemma OnlyShow(a: seq<nat>, p: seq<nat>, k: nat)
    requires k == 1 <= |p| && multiset(a) == multiset(p[..k])
    ensures a == [p[0]]
  {
    assert p[..k] == [p[0]];
    assert |a| == |multiset(a)|;
    assert a[0] in multiset(a);
  }

  /** A show missing from `s` is missing from any list with the same shows. */
  lemma ShowsOutside(a: seq<nat>, s: seq<nat>, x: nat)
    requires multiset(a) == multiset(s) && x !in s
    ensures x !in a
  {
    assert x !in multiset(s);
  }

  /** Every admissible partition yields the model's top-k list when there are no ties. */
  lemma AnyPartitionWithoutTies(row: seq<real>, cand: nat, k: nat, p: seq<nat>)
    requires cand <= |row| && k < cand && NoTies(row, cand)
    requires IsArgPartition(row, cand, k, p)
    ensures TopKFrom(row, cand, k, p) == TopKFrom(row, cand, k, ArgPartition(row, cand))
  {
    TopKUniqueWithoutTies(row, cand, k, TopKFrom(row, cand, k, p), TopKFrom(row, cand, k, ArgPartition(row, cand)));
  }
}
