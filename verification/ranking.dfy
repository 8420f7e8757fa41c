/** Sequences of show indices ranked by a score row: the index range, the
    distinctness and ordering predicates, and a stable insertion sort by score,
    highest first (the order Python's `sorted(..., key=score, reverse=True)`
    produces). */
module Ranking {

  /** The indices 0, 1, ..., n-1 in ascending order. */
  function Range(n: nat): (r: seq<nat>)
    ensures |r| == n
    ensures forall i :: 0 <= i < n ==> r[i] == i
  {
    if n == 0 then [] else Range(n - 1) + [n - 1]
  }

  /** No index occurs twice. */
  predicate Distinct(s: seq<nat>) {
    forall i, j :: 0 <= i < j < |s| ==> s[i] != s[j]
  }

  /** Every index is below `n`. */
  predicate Below(s: seq<nat>, n: nat) {
    forall i :: 0 <= i < |s| ==> s[i] < n
  }

  /** Strictly ascending indices. */
  predicate Ascending(s: seq<nat>) {
    forall i, j :: 0 <= i < j < |s| ==> s[i] < s[j]
  }

  /** The indices are ordered by their score, highest first. */
  predicate ByScoreDesc(scores: seq<real>, s: seq<nat>)
    requires Below(s, |scores|)
  {
    forall i, j :: 0 <= i < j < |s| ==> scores[s[i]] >= scores[s[j]]
  }

  /** Indices of equal score appear in ascending index order. */
  predicate TiesAscending(scores: seq<real>, s: seq<nat>)
    requires Below(s, |scores|)
  {
    forall i, j :: 0 <= i < j < |s| && scores[s[i]] == scores[s[j]] ==> s[i] < s[j]
  }

  /** Inserts `x` in front of the first index whose score does not exceed its own. */
  function Insert(scores: seq<real>, x: nat, s: seq<nat>): (r: seq<nat>)
    requires x < |scores| && Below(s, |scores|)
    ensures |r| == |s| + 1
    ensures multiset(r) == multiset(s) + multiset{x}
    ensures Below(r, |scores|)
  {
    if |s| == 0 || scores[x] >= scores[s[0]] then [x] + s
    else
      assert s == [s[0]] + s[1..];
      [s[0]] + Insert(scores, x, s[1..])
  }

  /** The inserted sequence holds `x` and the indices of `s`, and nothing else. */
  lemma InsertMembers(scores: seq<real>, x: nat, s: seq<nat>)
    requires x < |scores| && Below(s, |scores|)
    ensures forall y :: y in Insert(scores, x, s) <==> y == x || y in s
  {
    var r := Insert(scores, x, s);
    forall y ensures y in r <==> y == x || y in s {
      assert y in r <==> y in multiset(r);
      assert y in s <==> y in multiset(s);
    }
  }

  /** Inserting into a ranked sequence keeps it ranked. */
  lemma {:induction false} InsertRanked(scores: seq<real>, x: nat, s: seq<nat>)
    requires x < |scores| && Below(s, |scores|) && ByScoreDesc(scores, s)
    ensures ByScoreDesc(scores, Insert(scores, x, s))
  {
    var r := Insert(scores, x, s);
    if |s| > 0 && scores[x] < scores[s[0]] {
      var t := s[1..];
      assert ByScoreDesc(scores, t) by {
        forall i, j | 0 <= i < j < |t| ensures scores[t[i]] >= scores[t[j]] {
          assert t[i] == s[i + 1] && t[j] == s[j + 1];
        }
      }
      InsertRanked(scores, x, t);
      InsertMembers(scores, x, t);
      var rest := Insert(scores, x, t);
      assert r == [s[0]] + rest;
      forall i, j | 0 <= i < j < |r| ensures scores[r[i]] >= scores[r[j]] {
        if i == 0 {
          assert r[j] == rest[j - 1] && r[j] in rest;
          if r[j] != x {
            var m :| 0 <= m < |t| && t[m] == r[j];
            assert s[m + 1] == r[j];
          }
        } else {
          assert r[i] == rest[i - 1] && r[j] == rest[j - 1];
        }
      }
    } else {
      assert r == [x] + s;
      forall i, j | 0 <= i < j < |r| ensures scores[r[i]] >= scores[r[j]] {
        if i > 0 {
          assert r[i] == s[i - 1] && r[j] == s[j - 1];
        } else if |s| > 0 {
          assert scores[s[0]] >= scores[s[j - 1]] || j == 1;
        }
      }
    }
  }

  /** Stable insertion sort of indices by score, highest first. */
  function SortDesc(scores: seq<real>, s: seq<nat>): (r: seq<nat>)
    requires Below(s, |scores|)
    ensures |r| == |s|
    ensures multiset(r) == multiset(s)
    ensures Below(r, |scores|)
    ensures ByScoreDesc(scores, r)
  {
    if |s| == 0 then []
    else
      assert s == [s[0]] + s[1..];
      var t := SortDesc(scores, s[1..]);
      InsertRanked(scores, s[0], t);
      Insert(scores, s[0], t)
  }

  /** Distinctness is "every index occurs at most once". */
  lemma {:induction false} DistinctMultiplicity(s: seq<nat>)
    ensures Distinct(s) <==> forall x :: multiset(s)[x] <= 1
  {
    if |s| > 0 {
      var t := s[1..];
      assert s == [s[0]] + t;
      DistinctMultiplicity(t);
      if Distinct(s) {
        assert Distinct(t) by {
          forall i, j | 0 <= i < j < |t| ensures t[i] != t[j] {
            assert s[i + 1] != s[j + 1];
          }
        }
        assert s[0] !in t by {
          forall i | 0 <= i < |t| ensures t[i] != s[0] {
            assert s[0] != s[i + 1];
          }
        }
        forall x ensures multiset(s)[x] <= 1 {
          assert multiset(s)[x] == multiset{s[0]}[x] + multiset(t)[x];
        }
      }
      if forall x :: multiset(s)[x] <= 1 {
        assert multiset(s)[s[0]] == 1 + multiset(t)[s[0]];
        assert s[0] !in t;
        forall x ensures multiset(t)[x] <= 1 {
          assert multiset(s)[x] == multiset{s[0]}[x] + multiset(t)[x];
        }
        forall i, j | 0 <= i < j < |s| ensures s[i] != s[j] {
          if i == 0 {
            assert s[j] == t[j - 1];
          } else {
            assert s[i] == t[i - 1] && s[j] == t[j - 1];
          }
        }
      }
    }
  }

  /** A rearrangement of distinct indices is distinct. */
  lemma PermutationKeepsDistinct(a: seq<nat>, b: seq<nat>)
    requires multiset(a) == multiset(b)
    requires Distinct(a)
    ensures Distinct(b)
  {
    DistinctMultiplicity(a);
    DistinctMultiplicity(b);
  }

  lemma RangeDistinct(n: nat)
    ensures Distinct(Range(n)) && Ascending(Range(n))
  {
  }

  /** Sorting indices that are already ordered by score changes nothing, so the
      sort is idempotent. */
  lemma {:induction false} SortDescIdentity(scores: seq<real>, s: seq<nat>)
    requires Below(s, |scores|) && ByScoreDesc(scores, s)
    ensures SortDesc(scores, s) == s
  {
    if |s| > 0 {
      SortDescIdentity(scores, s[1..]);
      assert s == [s[0]] + s[1..];
    }
  }

  /** Sorting an ascending index sequence breaks score ties by ascending index. */
  lemma {:induction false} SortDescTiesAscending(scores: seq<real>, s: seq<nat>)
    requires Below(s, |scores|) && Ascending(s)
    ensures TiesAscending(scores, SortDesc(scores, s))
  {
    if |s| > 0 {
      var t := s[1..];
      SortDescTiesAscending(scores, t);
      var sorted := SortDesc(scores, t);
      forall y | y in sorted ensures s[0] < y {
        assert y in multiset(sorted);
        assert y in t;
      }
      InsertTiesAscending(scores, s[0], sorted);
    }
  }

  /** Dropping the first index keeps a sequence ranked. */
  lemma TailRanked(scores: seq<real>, s: seq<nat>)
    requires |s| > 0 && Below(s, |scores|)
    requires ByScoreDesc(scores, s) && TiesAscending(scores, s)
    ensures Below(s[1..], |scores|)
    ensures ByScoreDesc(scores, s[1..]) && TiesAscending(scores, s[1..])
  {
    var t := s[1..];
    forall i, j | 0 <= i < j < |t| ensures scores[t[i]] >= scores[t[j]] {
      assert t[i] == s[i + 1] && t[j] == s[j + 1];
    }
    forall i, j | 0 <= i < j < |t| && scores[t[i]] == scores[t[j]] ensures t[i] < t[j] {
      assert t[i] == s[i + 1] && t[j] == s[j + 1];
    }
  }

  /** Putting in front an index that is below every index of equal score keeps ties ascending. */
  lemma ConsTiesAscending(scores: seq<real>, x: nat, s: seq<nat>)
    requires x < |scores| && Below(s, |scores|) && TiesAscending(scores, s)
    requires forall y :: y in s ==> x < y || scores[x] != scores[y]
    ensures TiesAscending(scores, [x] + s)
  {
    var r := [x] + s;
    forall i, j | 0 <= i < j < |r| && scores[r[i]] == scores[r[j]] ensures r[i] < r[j] {
      if i == 0 {
        assert r[j] in s;
      } else {
        assert r[i] == s[i - 1] && r[j] == s[j - 1];
      }
    }
  }

  lemma {:induction false} InsertTiesAscending(scores: seq<real>, x: nat, s: seq<nat>)
    requires x < |scores| && Below(s, |scores|)
    requires ByScoreDesc(scores, s) && TiesAscending(scores, s)
    requires forall y :: y in s ==> x < y
    ensures TiesAscending(scores, Insert(scores, x, s))
  {
    if |s| == 0 || scores[x] >= scores[s[0]] {
      ConsTiesAscending(scores, x, s);
    } else {
      var t := s[1..];
      TailRanked(scores, s);
      assert forall y :: y in t ==> y in s;
      InsertTiesAscending(scores, x, t);
      InsertMembers(scores, x, t);
      var rest := Insert(scores, x, t);
      forall y | y in rest ensures s[0] < y || scores[s[0]] != scores[y] {
        if y != x {
          var m :| 0 <= m < |t| && t[m] == y;
          assert s[m + 1] == y;
        }
      }
      ConsTiesAscending(scores, s[0], rest);
    }
  }
}
