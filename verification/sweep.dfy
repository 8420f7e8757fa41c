/** `find_true_positive_rate_vs_k`: for each k of a half-open range, the share
    of a user's watched shows among the first 100 that the top-k list over
    those 100 recovers. A rate is kept as its numerator and denominator. */
module Sweep {
  import opened Results
  import opened Ranking
  import opened TopK

  /** The ground-truth row the source reads, whatever user it is asked about. */
  const HeldOutUser: nat := 19
  /** Only the first 100 shows are candidates, and only they are held out. */
  const FirstShows: nat := 100

  /** The rate at `k` is `recovered / held`. */
  datatype Rate = Rate(k: nat, recovered: nat, held: nat)

  /** numpy `count_nonzero(row[shows])`: how many of the listed shows were watched. */
  function Watched(row: seq<int>, shows: seq<nat>): (n: nat)
    requires Below(shows, |row|)
    ensures n <= |shows|
  {
    if |shows| == 0 then 0
    else (if row[shows[0]] != 0 then 1 else 0) + Watched(row, shows[1..])
  }

  /** numpy `count_nonzero(row[:100])`: the watched shows among the first 100. */
  function HeldCount(row: seq<int>): (n: nat)
    ensures n <= Min(FirstShows, |row|)
  {
    Watched(row, Range(Min(FirstShows, |row|)))
  }

  /** The watched shows among those listed, as a set. */
  function WatchedSet(row: seq<int>, shows: seq<nat>): (s: set<nat>)
    ensures forall i :: i in s ==> i in shows && i < |row|
  {
    set i | i in shows && i < |row| && row[i] != 0
  }

  /** Over distinct shows, counting watched entries counts the watched set. */
  lemma {:induction false} WatchedIsSetSize(row: seq<int>, shows: seq<nat>)
    requires Below(shows, |row|) && Distinct(shows)
    ensures Watched(row, shows) == |WatchedSet(row, shows)|
  {
    if |shows| > 0 {
      var x := shows[0];
      var t := shows[1..];
      assert Distinct(t) by {
        forall i, j | 0 <= i < j < |t| ensures t[i] != t[j] {
          assert t[i] == shows[i + 1] && t[j] == shows[j + 1];
        }
      }
      WatchedIsSetSize(row, t);
      assert x !in t by {
        forall i | 0 <= i < |t| ensures t[i] != x {
          assert t[i] == shows[i + 1];
        }
      }
      assert shows == [x] + t;
      if row[x] != 0 {
        assert WatchedSet(row, shows) == {x} + WatchedSet(row, t);
      } else {
        assert WatchedSet(row, shows) == WatchedSet(row, t);
      }
    }
  }

  lemma SubsetSize(a: set<nat>, b: set<nat>)
    requires a <= b
    ensures |a| <= |b|
  {
    assert b == a + (b - a);
  }

  /** Distinct shows among the first 100 recover at most the held count, so each
      rate lies between 0 and 1. */
  lemma RecoveredAtMostHeld(row: seq<int>, shows: seq<nat>)
    requires Distinct(shows) && Below(shows, Min(FirstShows, |row|))
    ensures Watched(row, shows) <= HeldCount(row)
  {
    var all := Range(Min(FirstShows, |row|));
    RangeDistinct(Min(FirstShows, |row|));
    WatchedIsSetSize(row, shows);
    WatchedIsSetSize(row, all);
    forall i | i in WatchedSet(row, shows) ensures i in WatchedSet(row, all) {
      assert all[i] == i;
    }
    SubsetSize(WatchedSet(row, shows), WatchedSet(row, all));
  }

  /** The first listed show that is not below `n`, if any. */
  function FirstOutside(shows: seq<nat>, n: nat): (r: Option<nat>)
    ensures r.None? <==> Below(shows, n)
    ensures r.Some? ==> r.value in shows && n <= r.value
  {
    if |shows| == 0 then None
    else if n <= shows[0] then Some(shows[0])
    else FirstOutside(shows[1..], n)
  }

  /** A listed prefix never counts more watched shows than the whole list. */
  lemma {:induction false} WatchedPrefix(row: seq<int>, s: seq<nat>, t: seq<nat>)
    requires s <= t && Below(t, |row|)
    ensures Below(s, |row|) && Watched(row, s) <= Watched(row, t)
  {
    if |s| > 0 {
      assert s[1..] <= t[1..];
      WatchedPrefix(row, s[1..], t[1..]);
    }
  }

  /** What the sweep sees of the recommender: for each k, the top-k list or
      the error raised while computing it. */
  type TopKFn = nat -> Result<seq<Scored>>

  /** Every list returned names distinct shows among the first 100. */
  ghost predicate Proper(top: TopKFn) {
    forall k :: top(k).Ok? ==> Distinct(Shows(top(k).value)) && Below(Shows(top(k).value), FirstShows)
  }

  /** A smaller k that is asked for too succeeds and lists a prefix of the
      shows listed for the larger k. */
  ghost predicate Nested(top: TopKFn) {
    forall k, k' :: k <= k' && top(k').Ok? ==> top(k).Ok? && Shows(top(k).value) <= Shows(top(k').value)
  }

  /** The rate the sweep must record at `k` against ground-truth row `truth`:
      the held count, which is positive, as denominator, and as numerator the
      watched shows of the top-k list, no more than the denominator. */
  predicate RateAt(top: TopKFn, truth: seq<int>, k: nat, rate: Rate) {
    && rate.k == k
    && rate.held == HeldCount(truth)
    && 0 < rate.held
    && rate.recovered <= rate.held
    && top(k).Ok?
    && Below(Shows(top(k).value), |truth|)
    && rate.recovered == Watched(truth, Shows(top(k).value))
  }

  /** The rates the sweep over [lo, hi) must produce: one per k, in increasing k. */
  predicate IsRateCurve(top: TopKFn, truth: seq<int>, lo: nat, hi: nat, rates: seq<Rate>) {
    && |rates| == (if lo < hi then hi - lo else 0)
    && forall j :: 0 <= j < |rates| ==> RateAt(top, truth, lo + j, rates[j])
  }

  /** Inputs on which the sweep over [lo, hi) raises nothing: an empty range,
      or k from 1 up, a positive held count, and every top-k call succeeding
      with shows the ground-truth row covers. */
  predicate Feasible(top: TopKFn, truth: seq<int>, lo: nat, hi: nat) {
    hi <= lo ||
    (0 < lo && 0 < HeldCount(truth) &&
     forall k :: lo <= k < hi ==> top(k).Ok? && Below(Shows(top(k).value), |truth|))
  }

  /** Lines 37-40 once the top-k shows are known: index the ground-truth row
      with them, count the watched ones, and divide by the held count. */
  function RateOf(truth: seq<int>, held: nat, k: nat, shows: seq<nat>): (r: Result<Rate>)
    requires held == HeldCount(truth)
    requires Distinct(shows) && Below(shows, FirstShows)
    ensures r.Ok? ==> && r.value == Rate(k, r.value.recovered, held) && 0 < held
                      && Below(shows, |truth|) && r.value.recovered == Watched(truth, shows)
                      && r.value.recovered <= held
    ensures 0 < k && 0 < held && Below(shows, |truth|) ==> r.Ok?
    ensures k == 0 ==> r == Err(NonIntegerIndexArray)
    ensures 0 < k && !Below(shows, |truth|) ==> r.Err? && r.error.IndexOutOfRange?
    ensures 0 < k && Below(shows, |truth|) && held == 0 ==> r == Err(ZeroDivision)
  {
    if k == 0 then Err(NonIntegerIndexArray)
    else if FirstOutside(shows, |truth|).Some? then
      Err(IndexOutOfRange(FirstOutside(shows, |truth|).value, |truth|))
    else if held == 0 then Err(ZeroDivision)
    else
      RecoveredAtMostHeld(truth, shows);
      Ok(Rate(k, Watched(truth, shows), held))
  }

  /** Lines 36-40 for one k: the top-k list, then the rate. */
  function SweepStep(top: TopKFn, truth: seq<int>, held: nat, k: nat): (r: Result<Rate>)
    requires Proper(top) && held == HeldCount(truth)
    ensures r.Ok? ==> RateAt(top, truth, k, r.value)
    ensures top(k).Err? ==> r == Err(top(k).error)
    ensures top(k).Ok? && k == 0 ==> r == Err(NonIntegerIndexArray)
    ensures top(k).Ok? && 0 < k && 0 < held && Below(Shows(top(k).value), |truth|) ==> r.Ok?
    ensures top(k).Ok? && 0 < k && Below(Shows(top(k).value), |truth|) && held == 0 ==> r == Err(ZeroDivision)
    ensures held == 0 ==> r.Err?
  {
    var t := top(k);
    if t.Err? then Err(t.error)
    else RateOf(truth, held, k, Shows(t.value))
  }

  /** Lines 35-40 for k in [lo, hi): the k are taken in increasing order, so
      the smallest k that raises decides the error. */
  function SweepUpTo(top: TopKFn, truth: seq<int>, held: nat, lo: nat, hi: nat): (r: Result<seq<Rate>>)
    requires Proper(top) && held == HeldCount(truth)
    ensures r.Ok? ==> IsRateCurve(top, truth, lo, hi, r.value)
    ensures Feasible(top, truth, lo, hi) ==> r.Ok?
    ensures lo < hi && top(lo).Err? ==> r == Err(top(lo).error)
    ensures lo == 0 < hi && top(0).Ok? ==> r == Err(NonIntegerIndexArray)
    ensures 0 < lo < hi && top(lo).Ok? && Below(Shows(top(lo).value), |truth|) && held == 0 ==>
      r == Err(ZeroDivision)
    ensures lo < hi && held == 0 ==> r.Err?
    decreases hi
  {
    if hi <= lo then Ok([])
    else
      match SweepUpTo(top, truth, held, lo, hi - 1)
      case Err(e) => Err(e)
      case Ok(prefix) =>
        match SweepStep(top, truth, held, hi - 1)
        case Err(e) => Err(e)
        case Ok(rate) =>
          SnocRateCurve(top, truth, lo, hi, prefix, rate);
          Ok(prefix + [rate])
  }

  lemma SnocRateCurve(top: TopKFn, truth: seq<int>, lo: nat, hi: nat, prefix: seq<Rate>, rate: Rate)
    requires lo < hi && IsRateCurve(top, truth, lo, hi - 1, prefix)
    requires RateAt(top, truth, hi - 1, rate)
    ensures IsRateCurve(top, truth, lo, hi, prefix + [rate])
  {
    var rates := prefix + [rate];
    forall j | 0 <= j < |rates| ensures RateAt(top, truth, lo + j, rates[j]) {
      if j < |prefix| {
        assert rates[j] == prefix[j];
      }
    }
  }

  /** When every k before `m` goes through and `m` raises while computing its
      top-k list, the sweep raises that error. */
  lemma {:induction false} SweepUpToFirstError(top: TopKFn, truth: seq<int>, held: nat, lo: nat, m: nat, hi: nat)
    requires Proper(top) && held == HeldCount(truth)
    requires lo <= m < hi && Feasible(top, truth, lo, m) && top(m).Err?
    ensures SweepUpTo(top, truth, held, lo, hi) == Err(top(m).error)
    decreases hi
  {
    if m < hi - 1 {
      SweepUpToFirstError(top, truth, held, lo, m, hi - 1);
    }
  }

  /** Any rate curve of a nested top-k function has non-decreasing numerators:
      a larger k never recovers fewer shows. */
  lemma RateCurveMonotone(top: TopKFn, truth: seq<int>, lo: nat, hi: nat, rates: seq<Rate>)
    requires Nested(top) && IsRateCurve(top, truth, lo, hi, rates)
    ensures forall i, j :: 0 <= i <= j < |rates| ==> rates[i].recovered <= rates[j].recovered
  {
    forall i, j | 0 <= i <= j < |rates| ensures rates[i].recovered <= rates[j].recovered {
      RateAtMonotone(top, truth, lo + i, lo + j, rates[i], rates[j]);
    }
  }

  lemma RateAtMonotone(top: TopKFn, truth: seq<int>, k: nat, k': nat, a: Rate, b: Rate)
    requires Nested(top) && k <= k'
    requires RateAt(top, truth, k, a) && RateAt(top, truth, k', b)
    ensures a.recovered <= b.recovered
  {
    WatchedPrefix(truth, Shows(top(k).value), Shows(top(k').value));
  }

  /** A top-k function that, for each k below the candidate count, returns
      some top-k list of `row`, and raises for every other k: what
      `find_top_k_shows` is, whichever admissible partition numpy returns. */
  ghost predicate ListsTopK(top: TopKFn, row: seq<real>, cand: nat)
    requires cand <= |row|
  {
    forall k: nat :: (top(k).Ok? <==> k < cand) && (top(k).Ok? ==> IsTopK(row, cand, k, top(k).value))
  }

  /** Without ties, every such top-k function is nested, so the monotonicity
      of the rates does not depend on the partition. */
  lemma ListsTopKNested(top: TopKFn, row: seq<real>, cand: nat)
    requires cand <= |row| && NoTies(row, cand) && ListsTopK(top, row, cand)
    ensures Nested(top)
  {
    forall k: nat, k': nat | k <= k' && top(k').Ok? ensures top(k).Ok? && Shows(top(k).value) <= Shows(top(k').value) {
      var b := top(k').value;
      NestedWithoutTies(row, cand, k, k', top(k).value, b);
      assert Shows(b[..k]) == Shows(b)[..k];
    }
  }

  /** Without ties, any rate curve of any top-k function numpy's partitions
      could give has non-decreasing numerators. */
  lemma RatesMonotoneWithoutTies(top: TopKFn, row: seq<real>, cand: nat, truth: seq<int>, lo: nat, hi: nat, rates: seq<Rate>)
    requires cand <= |row| && NoTies(row, cand) && ListsTopK(top, row, cand)
    requires IsRateCurve(top, truth, lo, hi, rates)
    ensures forall i, j :: 0 <= i <= j < |rates| ==> rates[i].recovered <= rates[j].recovered
  {
    ListsTopKNested(top, row, cand);
    RateCurveMonotone(top, truth, lo, hi, rates);
  }

  /** The top-k function the sweep calls: `find_top_k_shows` over the first
      100 shows of user `user`'s scores. */
  function TopKOver(rec: seq<seq<real>>, user: nat): TopKFn {
    (k: nat) => FindTopKShows(rec, user, k, Some(FirstShows))
  }

  /** `find_top_k_shows` lists distinct shows among the first 100. */
  lemma TopKOverProper(rec: seq<seq<real>>, user: nat)
    ensures Proper(TopKOver(rec, user))
  {
    var top := TopKOver(rec, user);
    forall k | top(k).Ok? ensures Distinct(Shows(top(k).value)) && Below(Shows(top(k).value), FirstShows) {
      assert Below(Shows(top(k).value), SweepPool(rec, user));
    }
  }

  /** The model's `find_top_k_shows` over a valid user is one of those
      top-k functions. */
  lemma TopKOverListsTopK(rec: seq<seq<real>>, user: nat)
    requires user < |rec|
    ensures ListsTopK(TopKOver(rec, user), rec[user], SweepPool(rec, user))
  {
    var top := TopKOver(rec, user);
    forall k: nat ensures (top(k).Ok? <==> k < SweepPool(rec, user))
                       && (top(k).Ok? ==> IsTopK(rec[user], SweepPool(rec, user), k, top(k).value))
    {
      assert top(k) == FindTopKShows(rec, user, k, Some(FirstShows));
    }
  }

  /** With the fixed partition, `find_top_k_shows` is nested in k. */
  lemma TopKOverNested(rec: seq<seq<real>>, user: nat)
    ensures Nested(TopKOver(rec, user))
  {
    var top := TopKOver(rec, user);
    forall k, k' | k <= k' && top(k').Ok? ensures top(k).Ok? && Shows(top(k).value) <= Shows(top(k').value) {
      FindTopKShowsNested(rec, user, k, k', Some(FirstShows));
    }
  }

  /** The candidate count of every top-k call in the sweep. */
  function SweepPool(rec: seq<seq<real>>, user: nat): (n: nat)
    requires user < |rec|
    ensures n <= FirstShows && n <= |rec[user]|
  {
    CandidateCount(|rec[user]|, Some(FirstShows))
  }

  /** Inputs on which the sweep over [lo, hi) for user `user` raises nothing:
      an empty range, or a valid user, k from 1 up to below the pool, a
      positive held count and a ground-truth row covering the pool. */
  predicate SweepDefined(rec: seq<seq<real>>, truth: seq<int>, user: nat, lo: nat, hi: nat) {
    hi <= lo ||
    (user < |rec| && 0 < lo && hi <= SweepPool(rec, user) && 0 < HeldCount(truth)
     && SweepPool(rec, user) <= |truth|)
  }

  lemma SweepDefinedFeasible(rec: seq<seq<real>>, truth: seq<int>, user: nat, lo: nat, hi: nat)
    ensures SweepDefined(rec, truth, user, lo, hi) ==> Feasible(TopKOver(rec, user), truth, lo, hi)
  {
    var top := TopKOver(rec, user);
    if lo < hi && SweepDefined(rec, truth, user, lo, hi) {
      forall k | lo <= k < hi ensures top(k).Ok? && Below(Shows(top(k).value), |truth|) {
        assert Below(Shows(top(k).value), SweepPool(rec, user));
      }
    }
  }

  /** The errors the sweep over [lo, hi) raises for user `user` against
      ground-truth row `truthRow`, in the order the source meets them: the
      row is read first; then, for the first k, a missing user raises
      `IndexError`, k at or above the pool raises `ValueError`, k = 0 leaves
      an empty float index array, and a zero held count divides by zero; a
      later k at the pool raises `ValueError`. */
  predicate RaisesAsSource(rec: seq<seq<real>>, truth: seq<seq<int>>, user: nat, truthRow: nat, lo: nat, hi: nat,
                           r: Result<seq<Rate>>)
  {
    && (truthRow >= |truth| ==> r == Err(IndexOutOfRange(truthRow, |truth|)))
    && (truthRow < |truth| && lo < hi && user >= |rec| ==> r == Err(IndexOutOfRange(user, |rec|)))
    && (truthRow < |truth| && lo < hi && user < |rec| && SweepPool(rec, user) <= lo ==>
          r == Err(KthOutOfBounds(lo, SweepPool(rec, user))))
    && (truthRow < |truth| && lo == 0 < hi && user < |rec| && 0 < SweepPool(rec, user) ==>
          r == Err(NonIntegerIndexArray))
    && (ZeroHeldReached(rec, truth, user, truthRow, lo, hi) ==> r == Err(ZeroDivision))
    && (PoolEndReached(rec, truth, user, truthRow, lo, hi) ==>
          r == Err(KthOutOfBounds(SweepPool(rec, user), SweepPool(rec, user))))
  }

  /** The first k of the sweep gets a top-k list inside the ground-truth row,
      and the held count is zero: the division at line 40 raises. */
  predicate ZeroHeldReached(rec: seq<seq<real>>, truth: seq<seq<int>>, user: nat, truthRow: nat, lo: nat, hi: nat) {
    truthRow < |truth| && 0 < lo < hi && user < |rec| && lo < SweepPool(rec, user) <= |truth[truthRow]|
    && HeldCount(truth[truthRow]) == 0
  }

  /** Every k below the pool goes through and the range reaches the pool,
      where `argpartition` raises. */
  predicate PoolEndReached(rec: seq<seq<real>>, truth: seq<seq<int>>, user: nat, truthRow: nat, lo: nat, hi: nat) {
    truthRow < |truth| && 0 < lo && user < |rec| && lo < SweepPool(rec, user) < hi
    && SweepPool(rec, user) <= |truth[truthRow]| && 0 < HeldCount(truth[truthRow])
  }

  /** `find_true_positive_rate_vs_k` with the ground-truth row as a parameter:
      the held count is read before the loop, so a missing row raises even for
      an empty range. */
  function RateSweep(rec: seq<seq<real>>, truth: seq<seq<int>>, user: nat, truthRow: nat, lo: nat, hi: nat): (r: Result<seq<Rate>>)
    ensures r.Ok? ==> truthRow < |truth| && IsRateCurve(TopKOver(rec, user), truth[truthRow], lo, hi, r.value)
    ensures truthRow < |truth| && SweepDefined(rec, truth[truthRow], user, lo, hi) ==> r.Ok?
    ensures truthRow < |truth| && lo < hi && HeldCount(truth[truthRow]) == 0 ==> r.Err?
    ensures RaisesAsSource(rec, truth, user, truthRow, lo, hi, r)
  {
    if truthRow >= |truth| then Err(IndexOutOfRange(truthRow, |truth|))
    else
      var row := truth[truthRow];
      TopKOverProper(rec, user);
      SweepDefinedFeasible(rec, row, user, lo, hi);
      SweepUpToRaises(rec, truth, user, truthRow, lo, hi);
      SweepUpTo(TopKOver(rec, user), row, HeldCount(row), lo, hi)
  }

  /** The sweep over an existing ground-truth row raises as the source does. */
  lemma SweepUpToRaises(rec: seq<seq<real>>, truth: seq<seq<int>>, user: nat, truthRow: nat, lo: nat, hi: nat)
    requires truthRow < |truth| && Proper(TopKOver(rec, user))
    ensures RaisesAsSource(rec, truth, user, truthRow, lo, hi,
                           SweepUpTo(TopKOver(rec, user), truth[truthRow], HeldCount(truth[truthRow]), lo, hi))
  {
    var top := TopKOver(rec, user);
    var row := truth[truthRow];
    if ZeroHeldReached(rec, truth, user, truthRow, lo, hi) {
      assert Below(Shows(top(lo).value), |row|);
    }
    if PoolEndReached(rec, truth, user, truthRow, lo, hi) {
      SweepDefinedFeasible(rec, row, user, lo, SweepPool(rec, user));
      SweepUpToFirstError(top, row, HeldCount(row), lo, SweepPool(rec, user), hi);
    }
  }

  /** The function as written: the ground truth is always row 19, whatever
      `user` is (the top-k lists come from row `user` of the scores). */
  function FindTruePositiveRateVsK(rec: seq<seq<real>>, truth: seq<seq<int>>, user: nat, lo: nat, hi: nat): (r: Result<seq<Rate>>)
    ensures r.Ok? ==> HeldOutUser < |truth| && IsRateCurve(TopKOver(rec, user), truth[HeldOutUser], lo, hi, r.value)
    ensures HeldOutUser < |truth| && SweepDefined(rec, truth[HeldOutUser], user, lo, hi) ==> r.Ok?
    ensures RaisesAsSource(rec, truth, user, HeldOutUser, lo, hi, r)
  {
    RateSweep(rec, truth, user, HeldOutUser, lo, hi)
  }

  /** The sweep as evidently intended: the user's own row is the ground truth. */
  function TruePositiveRateVsK(rec: seq<seq<real>>, truth: seq<seq<int>>, user: nat, lo: nat, hi: nat): (r: Result<seq<Rate>>)
    ensures r.Ok? ==> user < |truth| && IsRateCurve(TopKOver(rec, user), truth[user], lo, hi, r.value)
    ensures user < |truth| && SweepDefined(rec, truth[user], user, lo, hi) ==> r.Ok?
    ensures RaisesAsSource(rec, truth, user, user, lo, hi, r)
  {
    RateSweep(rec, truth, user, user, lo, hi)
  }

  /** A larger k never recovers fewer shows: the numerators of a successful
      sweep never decrease. */
  lemma RateSweepMonotone(rec: seq<seq<real>>, truth: seq<seq<int>>, user: nat, truthRow: nat, lo: nat, hi: nat)
    ensures var r := RateSweep(rec, truth, user, truthRow, lo, hi);
      r.Ok? ==> forall i, j :: 0 <= i <= j < |r.value| ==> r.value[i].recovered <= r.value[j].recovered
  {
    var r := RateSweep(rec, truth, user, truthRow, lo, hi);
    if r.Ok? {
      TopKOverNested(rec, user);
      RateCurveMonotone(TopKOver(rec, user), truth[truthRow], lo, hi, r.value);
    }
  }

  /** The driver's hold-out copy: the user's first 100 entries zeroed, every
      other entry as before; a missing row raises `IndexError`. */
  function HoldOut(truth: seq<seq<int>>, user: nat): (r: Result<seq<seq<int>>>)
    ensures user >= |truth| ==> r == Err(IndexOutOfRange(user, |truth|))
    ensures user < |truth| ==> r.Ok? && |r.value| == |truth|
    ensures r.Ok? ==> forall u :: 0 <= u < |truth| && u != user ==> r.value[u] == truth[u]
    ensures r.Ok? ==> |r.value[user]| == |truth[user]|
    ensures r.Ok? ==> forall j :: FirstShows <= j < |truth[user]| ==> r.value[user][j] == truth[user][j]
    ensures r.Ok? ==> forall j :: 0 <= j < Min(FirstShows, |truth[user]|) ==> r.value[user][j] == 0
  {
    if user >= |truth| then Err(IndexOutOfRange(user, |truth|))
    else
      var row := truth[user];
      Ok(truth[user := seq(|row|, j requires 0 <= j < |row| => if j < FirstShows then 0 else row[j])])
  }

  /** After the hold-out the user has no watched show among the first 100 left
      for the recommenders to see, while every other user keeps theirs. */
  lemma HoldOutHidesHeld(truth: seq<seq<int>>, user: nat)
    requires user < |truth|
    ensures HeldCount(HoldOut(truth, user).value[user]) == 0
    ensures forall u :: 0 <= u < |truth| && u != user ==>
      HeldCount(HoldOut(truth, user).value[u]) == HeldCount(truth[u])
  {
    var row := HoldOut(truth, user).value[user];
    WatchedNone(row, Range(Min(FirstShows, |row|)));
  }

  lemma {:induction false} WatchedNone(row: seq<int>, shows: seq<nat>)
    requires Below(shows, |row|)
    requires forall i :: 0 <= i < |shows| ==> row[shows[i]] == 0
    ensures Watched(row, shows) == 0
  {
    if |shows| > 0 {
      WatchedNone(row, shows[1..]);
    }
  }

  /** Over two candidate shows, the top-1 list of a row whose first score is
      higher is show 0. */
  lemma TopOneOfTwo(row: seq<real>, r: seq<Scored>)
    requires |row| == 2 && row[0] > row[1] && IsTopK(row, 2, 1, r)
    ensures Shows(r) == [0]
  {
    assert Shows(r)[0] == r[0].show;
  }

  /** Over a two-show row, the held count and the count for show 0 alone. */
  lemma TwoShowCounts(row: seq<int>)
    requires |row| == 2
    ensures HeldCount(row) == (if row[0] != 0 then 1 else 0) + (if row[1] != 0 then 1 else 0)
    ensures Watched(row, [0]) == (if row[0] != 0 then 1 else 0)
  {
    assert Min(FirstShows, |row|) == 2;
    assert Range(2) == [0, 1];
    var one: seq<nat> := [1];
    assert [0, 1][1..] == one && one[1..] == [];
    assert Watched(row, one) == (if row[1] != 0 then 1 else 0);
    assert Watched(row, [0]) == (if row[0] != 0 then 1 else 0) + Watched(row, []);
  }

  /** A single user with two shows, ranked show 0 first: the sweep's top-1
      list is show 0. */
  lemma WitnessTopOne(rec: seq<seq<real>>)
    requires |rec| == 1 && |rec[0]| == 2 && rec[0][0] > rec[0][1]
    ensures SweepPool(rec, 0) == 2
    ensures TopKOver(rec, 0)(1).Ok? && Shows(TopKOver(rec, 0)(1).value) == [0]
  {
    var top := FindTopKShows(rec, 0, 1, Some(FirstShows));
    assert CandidateCount(2, Some(FirstShows)) == 2;
    TopOneOfTwo(rec[0], top.value);
  }

  /** One user whose score for show 0 is higher than for show 1, and twenty
      ground-truth rows of two shows: user 0 has watched both, user 19 only
      show 1. Asked about user 0, the sweep as written scores user 0's top-1
      list, which is show 0, against user 19's row and reports a rate of 0/1. */
  lemma HardCodedRowMisreports(rec: seq<seq<real>>, truth: seq<seq<int>>)
    requires |rec| == 1 && |rec[0]| == 2 && rec[0][0] > rec[0][1]
    requires |truth| == 20 && truth[0] == [1, 1] && truth[HeldOutUser] == [0, 1]
    ensures FindTruePositiveRateVsK(rec, truth, 0, 1, 2) == Ok([Rate(1, 0, 1)])
  {
    var r := FindTruePositiveRateVsK(rec, truth, 0, 1, 2);
    WitnessRates(rec, truth[HeldOutUser], r, 1, 0);
  }

  /** With the row fixed to the user asked about, the same inputs give 1/2. */
  lemma OwnRowReports(rec: seq<seq<real>>, truth: seq<seq<int>>)
    requires |rec| == 1 && |rec[0]| == 2 && rec[0][0] > rec[0][1]
    requires |truth| == 20 && truth[0] == [1, 1] && truth[HeldOutUser] == [0, 1]
    ensures TruePositiveRateVsK(rec, truth, 0, 1, 2) == Ok([Rate(1, 1, 2)])
  {
    var r := TruePositiveRateVsK(rec, truth, 0, 1, 2);
    WitnessRates(rec, truth[0], r, 2, 1);
  }

  /** On the witness scores, a successful sweep over k = 1 against a two-show
      ground-truth row whose show 1 is watched records how many of the row's
      shows are watched and whether show 0 is. */
  lemma WitnessRates(rec: seq<seq<real>>, row: seq<int>, r: Result<seq<Rate>>, held: nat, first: nat)
    requires |rec| == 1 && |rec[0]| == 2 && rec[0][0] > rec[0][1]
    requires |row| == 2 && row[1] != 0
    requires held == (if row[0] != 0 then 2 else 1) && first == (if row[0] != 0 then 1 else 0)
    requires SweepDefined(rec, row, 0, 1, 2) ==> r.Ok?
    requires r.Ok? ==> IsRateCurve(TopKOver(rec, 0), row, 1, 2, r.value)
    ensures r == Ok([Rate(1, first, held)])
  {
    TwoShowCounts(row);
    WitnessTopOne(rec);
    assert SweepDefined(rec, row, 0, 1, 2);
    var v := r.value;
    assert |v| == 1;
    assert RateAt(TopKOver(rec, 0), row, 1, v[0]);
    assert v[0].recovered == Watched(row, [0]);
    assert v[0] == Rate(1, first, held);
    assert v == [Rate(1, first, held)];
  }
}
