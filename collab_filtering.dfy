/**
 * The item-based recommender (lab03/collab_filtering.py): the item-item
 * similarity matrix, the rating predictor and the recommendation list.
 *
 * The matrix is modelled as the code builds it. Each outer pass starts the row
 * of its movie afresh, which discards the mirror entries earlier passes wrote
 * into that row, so a finished row of `a` holds only movies that come after
 * `a` in first-appearance order.
 */
module CollabFiltering {
  import opened Wrappers
  import opened Dicts
  import opened Stats
  import opened Seqs
  import opened Similarity
  import opened DataHandler

  type SimMatrix = map<int, map<int, real>>

  function Abs(x: real): (r: real)
    ensures r >= 0.0 && (r == x || r == -x)
  {
    if x < 0.0 then -x else x
  }

  /** A similarity is stored when it is defined and its magnitude exceeds 0.1. */
  predicate Kept(s: Option<real>)
  {
    s.Some? && Abs(s.value) > 0.1
  }

  /** `b` comes after `a` in `ids`. */
  predicate Precedes(ids: seq<int>, a: int, b: int)
  {
    a in ids && b in ids && IndexOf(ids, a) < IndexOf(ids, b)
  }

  /** The similarity `build_item_similarity` computes for a pair of movies. */
  function ItemSimilarities(ratings: seq<Rating>, minCommon: int, sqrt: real -> real): (int, int) -> Option<real>
  {
    (a, b) => ItemSimilarity(a, b, ratings, minCommon, sqrt)
  }

  /**
   * The matrix `build_item_similarity` leaves: a row for every movie, and in the
   * row of `a` exactly the later movies `b` whose similarity `f(a, b)` is kept.
   */
  ghost predicate IsBuiltMatrix(sim: SimMatrix, ids: seq<int>, f: (int, int) -> Option<real>)
  {
    && (forall a :: a in sim <==> a in ids)
    && (forall a, b | a in sim :: b in sim[a] <==> Precedes(ids, a, b) && Kept(f(a, b)))
    && (forall a, b | a in sim && b in sim[a] :: Some(sim[a][b]) == f(a, b))
  }

  /** The row of `ids[p]` once the inner loop has looked at `ids[p + 1 .. j]`. */
  ghost predicate RowUpTo(row: map<int, real>, ids: seq<int>, p: int, j: int, f: (int, int) -> Option<real>)
    requires 0 <= p < |ids| && p + 1 <= j <= |ids|
  {
    && (forall b :: b in row <==> b in ids[p + 1..j] && Kept(f(ids[p], b)))
    && (forall b | b in row :: Some(row[b]) == f(ids[p], b))
  }

  /** Rows `0 .. i - 1` are finished. */
  ghost predicate RowsDone(m: SimMatrix, ids: seq<int>, i: int, f: (int, int) -> Option<real>)
    requires 0 <= i <= |ids|
  {
    && (forall x | x in m :: x in ids)
    && (forall p | 0 <= p < i :: ids[p] in m && RowUpTo(m[ids[p]], ids, p, |ids|, f))
  }

  lemma PrecedesAt(ids: seq<int>, p: int, b: int)
    requires Distinct(ids) && 0 <= p < |ids|
    ensures Precedes(ids, ids[p], b) <==> b in ids[p + 1..]
  {
    assert IndexOf(ids, ids[p]) == p;
    if b in ids[p + 1..] {
      var k :| 0 <= k < |ids[p + 1..]| && ids[p + 1..][k] == b;
      assert IndexOf(ids, b) == p + 1 + k;
    }
  }

  /** Finished rows for every movie make the built matrix. */
  lemma AllRowsDone(m: SimMatrix, ids: seq<int>, f: (int, int) -> Option<real>)
    requires Distinct(ids) && RowsDone(m, ids, |ids|, f)
    ensures IsBuiltMatrix(m, ids, f)
  {
    forall a | a in ids ensures a in m {
      var p :| 0 <= p < |ids| && ids[p] == a;
    }
    forall a, b | a in m ensures b in m[a] <==> Precedes(ids, a, b) && Kept(f(a, b)) {
      var p := IndexOf(ids, a);
      PrecedesAt(ids, p, b);
    }
  }

  /** No movie is stored as similar to itself. */
  lemma BuiltNoSelf(sim: SimMatrix, ids: seq<int>, f: (int, int) -> Option<real>, a: int)
    requires IsBuiltMatrix(sim, ids, f)
    ensures a in sim ==> a !in sim[a]
  {
  }

  /** Only one of `sim[a][b]` and `sim[b][a]` is ever stored. */
  lemma BuiltOneSided(sim: SimMatrix, ids: seq<int>, f: (int, int) -> Option<real>, a: int, b: int)
    requires IsBuiltMatrix(sim, ids, f)
    ensures a in sim && b in sim[a] ==> !(b in sim && a in sim[b])
  {
  }

  /** Every stored similarity has magnitude above 0.1. */
  lemma BuiltStrong(sim: SimMatrix, ids: seq<int>, f: (int, int) -> Option<real>, a: int, b: int)
    requires IsBuiltMatrix(sim, ids, f)
    ensures a in sim && b in sim[a] ==> Abs(sim[a][b]) > 0.1
  {
  }

  /**
   * One pass of the outer loop of `build_item_similarity`: row `ids[i]` is
   * started afresh, and each kept similarity to a later movie is written both
   * into it and, mirrored, into the later movie's row.
   */
  method FillRow(m0: SimMatrix, ids: seq<int>, i: int, f: (int, int) -> Option<real>) returns (m: SimMatrix)
    requires Distinct(ids) && 0 <= i < |ids|
    requires RowsDone(m0, ids, i, f)
    ensures RowsDone(m, ids, i + 1, f)
  {
    var a := ids[i];
    m := m0[a := map[]];
    var j := i + 1;
    while j < |ids|
      invariant i + 1 <= j <= |ids|
      invariant forall x | x in m :: x in ids
      invariant a in m && RowUpTo(m[a], ids, i, j, f)
      invariant forall p | 0 <= p < i :: ids[p] in m && RowUpTo(m[ids[p]], ids, p, |ids|, f)
    {
      var b := ids[j];
      var s := f(a, b);
      assert ids[i + 1..j + 1] == ids[i + 1..j] + [b];
      if s.Some? && Abs(s.value) > 0.1 {
        m := m[a := m[a][b := s.value]];
        var rowB := if b in m then m[b] else map[];
        m := m[b := rowB[a := s.value]];
        assert forall p | 0 <= p < i :: ids[p] != b && ids[p] != a;
      }
      j := j + 1;
    }
  }

  /** The two loops of `build_item_similarity` over the movies in `ids`. */
  method FillMatrix(ids: seq<int>, f: (int, int) -> Option<real>) returns (m: SimMatrix)
    requires Distinct(ids)
    ensures IsBuiltMatrix(m, ids, f)
  {
    m := map[];
    var i := 0;
    while i < |ids|
      invariant 0 <= i <= |ids|
      invariant RowsDone(m, ids, i, f)
    {
      m := FillRow(m, ids, i, f);
      i := i + 1;
    }
    AllRowsDone(m, ids, f);
  }

  /** A record read back from the cache file; an absent key is None. */
  datatype CacheRecord = CacheRecord(minCommonUsers: Option<int>, topK: Option<int>, sim: Option<SimMatrix>)

  /** The check of `_load_from_cache`: both hyperparameters equal the engine's. */
  predicate CacheMatches(rec: CacheRecord, minCommonUsers: int, topK: int)
  {
    rec.minCommonUsers == Some(minCommonUsers) && rec.topK == Some(topK)
  }

  /** A cache that `_load_from_cache` adopts (without a `sim` entry it raises and reports a miss). */
  predicate CacheHit(cache: Option<CacheRecord>, minCommonUsers: int, topK: int)
  {
    cache.Some? && CacheMatches(cache.value, minCommonUsers, topK) && cache.value.sim.Some?
  }

  /** The record `_save_to_cache` writes. */
  function SaveRecord(sim: SimMatrix, minCommonUsers: int, topK: int): (rec: CacheRecord)
    ensures CacheHit(Some(rec), minCommonUsers, topK) && rec.sim == Some(sim)
  {
    CacheRecord(Some(minCommonUsers), Some(topK), Some(sim))
  }

  // ---------------------------------------------------------------- prediction

  /** A neighbour of the target: (rated movie, similarity to the target, the user's rating). */
  type Neighbour = (int, real, real)

  function Affinity(n: Neighbour): real
  {
    n.1
  }

  /** `self.sim.get(item_id, {})` */
  function SimRow(sim: SimMatrix, item: int): map<int, real>
  {
    if item in sim then sim[item] else map[]
  }

  /** The rated movies with a positive similarity to the target, in the order of the user's ratings. */
  function Candidates(row: map<int, real>, userRatings: Dict<int, real>): (r: seq<Neighbour>)
    ensures |r| <= |userRatings|
    ensures forall x | x in r :: x.0 in row && row[x.0] == x.1 && x.1 > 0.0
    ensures forall x | x in r :: (x.0, x.2) in userRatings
    ensures forall i | 0 <= i < |userRatings| && userRatings[i].0 in row && row[userRatings[i].0] > 0.0 ::
              (userRatings[i].0, row[userRatings[i].0], userRatings[i].1) in r
  {
    if userRatings == [] then []
    else
      var n := |userRatings| - 1;
      var front := Candidates(row, userRatings[..n]);
      var (m, rating) := userRatings[n];
      assert forall i | 0 <= i < n :: userRatings[..n][i] == userRatings[i];
      if m in row && row[m] > 0.0 then front + [(m, row[m], rating)] else front
  }

  /** `similarities.sort(key=lambda x: x[1], reverse=True)` then `similarities[:k]`. */
  function Neighbours(row: map<int, real>, userRatings: Dict<int, real>, k: int): seq<Neighbour>
  {
    Take(SortDesc(Candidates(row, userRatings), Affinity), k)
  }

  /**
   * The neighbours used are candidates, at most `k` of them, with the largest
   * similarities first; no candidate left out is more similar than one kept.
   */
  lemma NeighboursTop(row: map<int, real>, userRatings: Dict<int, real>, k: int)
    ensures var cs, ns := Candidates(row, userRatings), Neighbours(row, userRatings, k);
            && (forall x | x in ns :: x in cs)
            && (k >= 0 ==> |ns| <= k)
            && (ns == [] <==> cs == [] || k == 0 || (k < 0 && -k >= |cs|))
            && (forall i, j | 0 <= i < j < |ns| :: ns[i].1 >= ns[j].1)
            && (forall c | c in cs && c !in ns :: forall x | x in ns :: x.1 >= c.1)
  {
    var cs := Candidates(row, userRatings);
    var sorted := SortDesc(cs, Affinity);
    var ns := Take(sorted, k);
    assert |sorted| == |multiset(sorted)| == |cs|;
    forall x | x in ns ensures x in cs {
      assert x in multiset(sorted);
    }
    forall c | c in cs && c !in ns ensures forall x | x in ns :: x.1 >= c.1 {
      TakeSortedTop(cs, Affinity, k, c);
    }
    assert forall i | 0 <= i < |ns| :: ns[i] == sorted[i];
  }

  /** The ratings of a column that are above 0 (users in row order). */
  function PositiveColumn(t: Table, movie: int, users: seq<int>): seq<real>
  {
    if users == [] then []
    else
      var n := |users| - 1;
      var c := Cell(t, users[n], movie);
      PositiveColumn(t, movie, users[..n]) + (if c > 0.0 then [c] else [])
  }

  /** Mean of the positive cells of a column, 3.0 when it has none. */
  function ColumnMean(t: Table, movie: int): real
  {
    var vs := PositiveColumn(t, movie, t.users);
    if vs == [] then 3.0 else Mean(vs)
  }

  /** `ColumnMean` as a lookup from movie to mean. */
  function ColumnMeans(t: Table): int -> real
  {
    (movie: int) => ColumnMean(t, movie)
  }

  /** A neighbour's similarity times the deviation of the user's rating from its movie's mean. */
  function Deviation(n: Neighbour, mean: int -> real): real
  {
    n.1 * (n.2 - mean(n.0))
  }

  /** The numerator and denominator of the weighted deviation over `ns`. */
  function Weighted(ns: seq<Neighbour>, mean: int -> real): (real, real)
  {
    if ns == [] then (0.0, 0.0)
    else
      var n := |ns| - 1;
      var (num, den) := Weighted(ns[..n], mean);
      (num + Deviation(ns[n], mean), den + Abs(ns[n].1))
  }

  /** With positive similarities the denominator is positive exactly when a neighbour is left. */
  lemma {:induction false} WeightedDenominator(ns: seq<Neighbour>, mean: int -> real)
    requires forall i | 0 <= i < |ns| :: ns[i].1 > 0.0
    ensures Weighted(ns, mean).1 >= 0.0
    ensures Weighted(ns, mean).1 > 0.0 <==> ns != []
  {
    if ns != [] {
      WeightedDenominator(ns[..|ns| - 1], mean);
    }
  }

  /** The first neighbour that is not a column of the table (indexing it raises KeyError). */
  function FirstMissing(ns: seq<Neighbour>, t: Table): (r: Option<int>)
    ensures r.None? <==> forall i | 0 <= i < |ns| :: ns[i].0 in t.movies
    ensures r.Some? ==> exists i | 0 <= i < |ns| :: ns[i].0 == r.value && ns[i].0 !in t.movies
  {
    if ns == [] then None
    else
      var n := |ns| - 1;
      var front := FirstMissing(ns[..n], t);
      if front.Some? then front
      else if ns[n].0 !in t.movies then Some(ns[n].0)
      else None
  }

  /** `max(1.0, min(5.0, x))` */
  function Clip(x: real): (r: real)
    ensures 1.0 <= r <= 5.0
    ensures 1.0 <= x <= 5.0 ==> r == x
    ensures x < 1.0 ==> r == 1.0
    ensures x > 5.0 ==> r == 5.0
  {
    var low := if 5.0 < x then 5.0 else x;
    if 1.0 > low then 1.0 else low
  }

  /**
   * What `predict_rating(user_ratings, item, k)` returns: Ok(None) for "no
   * prediction", Err(m) when indexing column `m` raises KeyError (a cached
   * matrix that names a movie the table does not have).
   */
  function Prediction(sim: SimMatrix, table: Option<Table>, userRatings: Dict<int, real>, item: int, k: int)
    : Result<Option<real>, int>
  {
    if userRatings == [] then Ok(None)
    else if Candidates(SimRow(sim, item), userRatings) == [] then Ok(None)
    else if table.None? || item !in table.value.movies then Ok(None)
    else Estimate(Neighbours(SimRow(sim, item), userRatings, k), table.value, item)
  }

  /** The weighted-deviation estimate for `item` from the neighbours `ns`. */
  function Estimate(ns: seq<Neighbour>, t: Table, item: int): Result<Option<real>, int>
  {
    match FirstMissing(ns, t)
    case Some(m) => Err(m)
    case None =>
      var (num, den) := Weighted(ns, ColumnMeans(t));
      if den == 0.0 then Ok(None)
      else Ok(Some(Clip(ColumnMean(t, item) + num / den)))
  }

  /** A defined prediction lies in [1, 5]. */
  lemma PredictionRange(sim: SimMatrix, table: Option<Table>, userRatings: Dict<int, real>, item: int, k: int)
    ensures var p := Prediction(sim, table, userRatings, item, k);
            p.Ok? && p.value.Some? ==> 1.0 <= p.value.value <= 5.0
  {
  }

  /**
   * A prediction exists exactly when the user has rated something, some rated
   * movie has a positive similarity to the target, the cut to `k` leaves a
   * neighbour, the target is a column of the table, and so is every neighbour.
   * So the `denominator == 0` branch is taken only when the cut leaves nothing.
   */
  lemma PredictionDefined(sim: SimMatrix, table: Option<Table>, userRatings: Dict<int, real>, item: int, k: int)
    ensures var ns := Neighbours(SimRow(sim, item), userRatings, k);
            var p := Prediction(sim, table, userRatings, item, k);
            (p.Ok? && p.value.Some?) <==>
              && userRatings != []
              && Candidates(SimRow(sim, item), userRatings) != []
              && table.Some? && item in table.value.movies
              && ns != []
              && (forall i | 0 <= i < |ns| :: ns[i].0 in table.value.movies)
  {
    NeighboursPositive(SimRow(sim, item), userRatings, k);
    if table.Some? {
      EstimateDefined(Neighbours(SimRow(sim, item), userRatings, k), table.value, item);
    }
  }

  /** With positive similarities, an estimate exists exactly when a neighbour is left and every neighbour is a column. */
  lemma EstimateDefined(ns: seq<Neighbour>, t: Table, item: int)
    requires forall i | 0 <= i < |ns| :: ns[i].1 > 0.0
    ensures var e := Estimate(ns, t, item);
            (e.Ok? && e.value.Some?) <==> ns != [] && forall i | 0 <= i < |ns| :: ns[i].0 in t.movies
  {
    WeightedDenominator(ns, ColumnMeans(t));
  }

  /** Every neighbour used has a positive similarity. */
  lemma NeighboursPositive(row: map<int, real>, userRatings: Dict<int, real>, k: int)
    ensures var ns := Neighbours(row, userRatings, k);
            forall i | 0 <= i < |ns| :: ns[i].1 > 0.0
  {
    var cs := Candidates(row, userRatings);
    var sorted := SortDesc(cs, Affinity);
    var ns := Take(sorted, k);
    forall i | 0 <= i < |ns| ensures ns[i].1 > 0.0 {
      assert ns[i] == sorted[i];
      assert sorted[i] in multiset(cs);
    }
  }

  /** The loop of `predict_rating` that gathers `similarities`. */
  method GatherCandidates(row: map<int, real>, userRatings: Dict<int, real>) returns (similarities: seq<Neighbour>)
    ensures similarities == Candidates(row, userRatings)
  {
    similarities := [];
    var i := 0;
    while i < |userRatings|
      invariant 0 <= i <= |userRatings|
      invariant similarities == Candidates(row, userRatings[..i])
    {
      var (rated, rating) := userRatings[i];
      assert userRatings[..i + 1][..i] == userRatings[..i];
      if rated in row && row[rated] > 0.0 {
        similarities := similarities + [(rated, row[rated], rating)];
      }
      i := i + 1;
    }
    assert userRatings[..i] == userRatings;
  }

  /**
   * The loop of `predict_rating` that sums the weighted deviations; indexing
   * the column of a neighbour the table lacks raises KeyError (Err).
   */
  method Accumulate(ns: seq<Neighbour>, t: Table, mean: int -> real) returns (r: Result<(real, real), int>)
    ensures FirstMissing(ns, t).Some? ==> r == Err(FirstMissing(ns, t).value)
    ensures FirstMissing(ns, t).None? ==> r == Ok(Weighted(ns, mean))
  {
    var numerator, denominator := 0.0, 0.0;
    var j := 0;
    while j < |ns|
      invariant 0 <= j <= |ns|
      invariant FirstMissing(ns[..j], t).None?
      invariant numerator == Weighted(ns[..j], mean).0 && denominator == Weighted(ns[..j], mean).1
    {
      var rated, similarity, rating := ns[j].0, ns[j].1, ns[j].2;
      assert ns[..j + 1][..j] == ns[..j];
      if rated !in t.movies {
        assert ns[..j + 1] == ns[..j] + [ns[j]];
        FirstMissingPrefix(ns, t, j + 1);
        return Err(rated);
      }
      var ratedMean := mean(rated);
      var adjusted := rating - ratedMean;
      WeightedStep(ns, mean, j, adjusted);
      numerator := numerator + similarity * adjusted;
      denominator := denominator + Abs(similarity);
      j := j + 1;
    }
    assert ns[..j] == ns;
    assert Weighted(ns, mean) == (numerator, denominator);
    return Ok((numerator, denominator));
  }

  /** The tail of `predict_rating`: the weighted deviations, then the clipped estimate. */
  method EstimateRating(ns: seq<Neighbour>, t: Table, item: int) returns (r: Result<Option<real>, int>)
    ensures r == Estimate(ns, t, item)
  {
    var targetMean := ColumnMean(t, item);
    var sums := Accumulate(ns, t, ColumnMeans(t));
    if sums.Err? {
      return Err(sums.error);
    }
    var numerator, denominator := sums.value.0, sums.value.1;
    if denominator == 0.0 {
      return Ok(None);
    }
    var prediction := targetMean + numerator / denominator;
    return Ok(Some(Clip(prediction)));
  }

  lemma WeightedStep(ns: seq<Neighbour>, mean: int -> real, j: int, adjusted: real)
    requires 0 <= j < |ns| && adjusted == ns[j].2 - mean(ns[j].0)
    ensures Weighted(ns[..j + 1], mean).0 == Weighted(ns[..j], mean).0 + ns[j].1 * adjusted
    ensures Weighted(ns[..j + 1], mean).1 == Weighted(ns[..j], mean).1 + Abs(ns[j].1)
  {
    assert ns[..j + 1][..j] == ns[..j];
  }

  /** The first missing column of a prefix is the first missing column of the whole. */
  lemma {:induction false} FirstMissingPrefix(ns: seq<Neighbour>, t: Table, j: nat)
    requires j <= |ns| && FirstMissing(ns[..j], t).Some?
    ensures FirstMissing(ns, t) == FirstMissing(ns[..j], t)
  {
    if j < |ns| {
      var n := |ns| - 1;
      assert ns[..n][..j] == ns[..j];
      FirstMissingPrefix(ns[..n], t, j);
    } else {
      assert ns[..j] == ns;
    }
  }

  // ---------------------------------------------------------------- recommendations

  function Score(p: (int, real)): real
  {
    p.1
  }

  /** `[m for m in popular if m not in watched]`: the unwatched movies of `popular`, in its order. */
  function Unwatched(popular: seq<int>, watched: set<int>): (r: seq<int>)
    ensures forall m :: m in r <==> m in popular && m !in watched
    ensures |r| <= |popular|
    ensures Distinct(popular) ==> Distinct(r)
  {
    if popular == [] then []
    else
      var n := |popular| - 1;
      var front := Unwatched(popular[..n], watched);
      assert forall m :: m in popular <==> m in popular[..n] || m == popular[n] by {
        assert popular == popular[..n] + [popular[n]];
      }
      if popular[n] !in watched then front + [popular[n]] else front
  }

  /** The comprehension keeps the order of `popular`. */
  lemma {:induction false} UnwatchedOrder(popular: seq<int>, watched: set<int>)
    requires Distinct(popular)
    ensures forall i, j | 0 <= i < j < |Unwatched(popular, watched)| ::
              IndexOf(popular, Unwatched(popular, watched)[i]) < IndexOf(popular, Unwatched(popular, watched)[j])
  {
    if popular != [] {
      var n := |popular| - 1;
      var front := Unwatched(popular[..n], watched);
      UnwatchedOrder(popular[..n], watched);
      assert forall m :: m in popular <==> m in popular[..n] || m == popular[n] by {
        assert popular == popular[..n] + [popular[n]];
      }
      forall y | y in front ensures IndexOf(popular, y) == IndexOf(popular[..n], y) < n {
        IndexOfPrefix(popular, n, y);
      }
      if popular[n] !in watched {
        FirstIndex(popular, popular[n], n);
        var r := front + [popular[n]];
        forall i, j | 0 <= i < j < |r| ensures IndexOf(popular, r[i]) < IndexOf(popular, r[j]) {
          assert r[i] == front[i] && r[i] in front;
          if j < |front| {
            assert r[j] == front[j] && r[j] in front;
          } else {
            assert r[j] == popular[n];
          }
        }
      }
    }
  }

  lemma {:induction false} UnwatchedAppend(a: seq<int>, b: seq<int>, watched: set<int>)
    ensures Unwatched(a + b, watched) == Unwatched(a, watched) + Unwatched(b, watched)
    decreases |b|
  {
    if b == [] {
      assert a + b == a;
    } else {
      var n := |b| - 1;
      assert (a + b)[..|a + b| - 1] == a + b[..n];
      UnwatchedAppend(a, b[..n], watched);
    }
  }

  /** In a sequence without repetitions, an element is not repeated after its position. */
  lemma DistinctTail(xs: seq<int>, i: int)
    requires Distinct(xs) && 0 <= i < |xs|
    ensures xs[i] in xs[i..] && xs[i] !in xs[i + 1..]
    ensures forall y | y !in xs[i..] :: y !in xs[i + 1..]
  {
    assert xs[i..] == [xs[i]] + xs[i + 1..];
  }

  /** A prediction `generate_recommendations` keeps. */
  predicate Recommendable(p: Result<Option<real>, int>)
  {
    p.Ok? && p.value.Some? && p.value.value > 3.0
  }

  /** Each movie with the placeholder score 0.0. */
  function Zeroed(ms: seq<int>): (r: seq<(int, real)>)
    ensures |r| == |ms| && forall i | 0 <= i < |ms| :: r[i] == (ms[i], 0.0)
  {
    seq(|ms|, i requires 0 <= i < |ms| => (ms[i], 0.0))
  }

  /**
   * What the fallback loop of `generate_recommendations` collects: the first
   * `count` unwatched movies of `popular`. The length test comes after the
   * append, so with `count <= 0` the loop still looks at the first movie.
   */
  function FallbackOf(popular: seq<int>, watched: set<int>, count: int): seq<(int, real)>
  {
    if count >= 1 then Zeroed(Take(Unwatched(popular, watched), count))
    else if popular != [] && popular[0] !in watched then [(popular[0], 0.0)]
    else []
  }

  /** The fallback is the first unwatched popular movies, `count` of them when there are enough, with score 0.0. */
  lemma FallbackPrefix(popular: seq<int>, watched: set<int>, count: int)
    ensures var r := FallbackOf(popular, watched, count);
            var u := Unwatched(popular, watched);
            && |r| <= |u|
            && (forall i | 0 <= i < |r| :: r[i] == (u[i], 0.0))
            && (count >= 1 ==> |r| == if count < |u| then count else |u|)
            && (count < 1 ==> |r| <= 1)
  {
    if count < 1 && popular != [] && popular[0] !in watched {
      assert popular == [popular[0]] + popular[1..];
      UnwatchedAppend([popular[0]], popular[1..], watched);
    }
  }

  /** The fallback holds unwatched popular movies with score 0.0, distinct, and all of them when it is short of `count`. */
  lemma FallbackContents(popular: seq<int>, watched: set<int>, count: int)
    requires Distinct(popular)
    ensures var r := FallbackOf(popular, watched, count);
            && (forall x | x in r :: x.0 in popular && x.0 !in watched && x.1 == 0.0)
            && DistinctIds(r)
            && (count >= 1 ==> |r| <= count)
            && (count >= 1 && |r| < count ==> forall m | m in popular && m !in watched :: (m, 0.0) in r)
  {
    var r := FallbackOf(popular, watched, count);
    var u := Unwatched(popular, watched);
    FallbackPrefix(popular, watched, count);
    forall x | x in r ensures x.0 in u && x.1 == 0.0 {
      var i :| 0 <= i < |r| && r[i] == x;
    }
    if count >= 1 && |r| < count {
      forall m | m in popular && m !in watched ensures (m, 0.0) in r {
        var i :| 0 <= i < |u| && u[i] == m;
        assert r[i] == (m, 0.0);
      }
    }
  }

  /** One more movie of `popular` looked at by the fallback loop. */
  lemma FallbackStep(popular: seq<int>, watched: set<int>, j: int)
    requires 0 <= j < |popular|
    ensures Zeroed(Unwatched(popular[..j + 1], watched))
            == Zeroed(Unwatched(popular[..j], watched)) + (if popular[j] !in watched then [(popular[j], 0.0)] else [])
  {
    assert popular[..j + 1][..j] == popular[..j];
  }

  /** The unwatched movies of a prefix come first among those of the whole. */
  lemma UnwatchedPrefix(popular: seq<int>, watched: set<int>, k: int)
    requires 0 <= k <= |popular|
    ensures var prefix := Unwatched(popular[..k], watched);
            |prefix| <= |Unwatched(popular, watched)| && Unwatched(popular, watched)[..|prefix|] == prefix
  {
    SplitAt(popular, k);
    UnwatchedAppend(popular[..k], popular[k..], watched);
  }

  /** The loop stops after `popular[j]` once `count` movies are collected. */
  lemma FallbackStop(popular: seq<int>, watched: set<int>, count: int, j: int)
    requires 0 <= j < |popular| && (count < 1 ==> j == 0)
    requires count >= 1 ==> |Unwatched(popular[..j + 1], watched)| == count
    ensures Zeroed(Unwatched(popular[..j + 1], watched)) == FallbackOf(popular, watched, count)
  {
    UnwatchedPrefix(popular, watched, j + 1);
    if count < 1 {
      assert popular[..1] == [popular[0]];
    }
  }

  /** The loop runs through `popular` without collecting `count` movies. */
  lemma FallbackEnd(popular: seq<int>, watched: set<int>, count: int, j: int)
    requires j == |popular|
    requires popular == [] || (count >= 1 && |Unwatched(popular[..j], watched)| < count)
    ensures Zeroed(Unwatched(popular[..j], watched)) == FallbackOf(popular, watched, count)
  {
    assert popular[..j] == popular;
  }

  /**
   * The fallback loop of `generate_recommendations`: the unwatched movies of
   * `popular` with score 0.0, stopping once `count` are collected.
   */
  method PopularFallback(popular: seq<int>, watched: set<int>, count: int) returns (result: seq<(int, real)>)
    ensures result == FallbackOf(popular, watched, count)
  {
    result := [];
    var j := 0;
    while j < |popular|
      invariant 0 <= j <= |popular|
      invariant result == Zeroed(Unwatched(popular[..j], watched))
      invariant result == [] || |result| < count
      invariant count < 1 ==> j == 0
    {
      var mid := popular[j];
      FallbackStep(popular, watched, j);
      if mid !in watched {
        result := result + [(mid, 0.0)];
      }
      if |result| >= count {
        FallbackStop(popular, watched, count, j);
        return;
      }
      j := j + 1;
    }
    FallbackEnd(popular, watched, count, j);
  }

  /** The prediction for every candidate, as a function of the candidate. */
  function Predictor(sim: SimMatrix, table: Option<Table>, userRatings: Dict<int, real>, k: int): (int) -> Result<Option<real>, int>
  {
    (item: int) => Prediction(sim, table, userRatings, item, k)
  }

  /** `candidate_ids`: the unwatched popular movies, cut to the first 1000. */
  function CandidateIds(popular: seq<int>, watched: set<int>): (r: seq<int>)
    ensures var u := Unwatched(popular, watched); |r| == (if |u| > 1000 then 1000 else |u|) && r == u[..|r|]
  {
    var u := Unwatched(popular, watched);
    if |u| > 1000 then u[..1000] else u
  }

  /**
   * The predicting loop of `generate_recommendations`: the error of the first
   * candidate whose prediction raises, or else the candidates predicted above
   * 3.0 with their predictions, in candidate order.
   */
  function Scored(candidates: seq<int>, predict: int -> Result<Option<real>, int>): (r: Result<seq<(int, real)>, int>)
    ensures r.Ok? ==> |r.value| <= |candidates|
  {
    if candidates == [] then Ok([])
    else
      var n := |candidates| - 1;
      var front := Scored(candidates[..n], predict);
      if front.Err? then front
      else
        match predict(candidates[n])
        case Err(e) => Err(e)
        case Ok(v) => if v.Some? && v.value > 3.0 then Ok(front.value + [(candidates[n], v.value)]) else front
  }

  /** The loop raises exactly when some candidate's prediction raises, and then the error of the first such candidate. */
  lemma {:induction false} ScoredOutcome(candidates: seq<int>, predict: int -> Result<Option<real>, int>)
    ensures var r := Scored(candidates, predict);
            && (r.Ok? <==> forall c | c in candidates :: predict(c).Ok?)
            && (r.Err? ==> exists i | 0 <= i < |candidates| ::
                  predict(candidates[i]) == Err(r.error) && forall q | 0 <= q < i :: predict(candidates[q]).Ok?)
  {
    if candidates != [] {
      var n := |candidates| - 1;
      ScoredOutcome(candidates[..n], predict);
      assert forall c :: c in candidates <==> c in candidates[..n] || c == candidates[n] by {
        assert candidates == candidates[..n] + [candidates[n]];
      }
      if Scored(candidates[..n], predict).Ok? {
        assert forall c | c in candidates[..n] :: predict(c).Ok?;
        assert forall q | 0 <= q < n :: predict(candidates[..n][q]).Ok?;
      }
    }
  }

  /**
   * Without an error, the loop keeps exactly the candidates predicted above 3.0,
   * each once with its prediction.
   */
  lemma {:induction false} ScoredMembers(candidates: seq<int>, predict: int -> Result<Option<real>, int>)
    requires Scored(candidates, predict).Ok?
    ensures var p := Scored(candidates, predict).value;
            && (forall x :: x in p <==> x.0 in candidates && Recommendable(predict(x.0)) && x.1 == predict(x.0).value.value)
            && (p == [] <==> forall c | c in candidates :: !Recommendable(predict(c)))
            && (Distinct(candidates) ==> DistinctIds(p))
  {
    if candidates != [] {
      var n := |candidates| - 1;
      ScoredMembers(candidates[..n], predict);
      assert forall c :: c in candidates <==> c in candidates[..n] || c == candidates[n] by {
        assert candidates == candidates[..n] + [candidates[n]];
      }
      assert Distinct(candidates) ==> candidates[n] !in candidates[..n];
    }
  }

  /** Once a prefix of the candidates raises, the whole loop raises the same error. */
  lemma {:induction false} ScoredPrefixErr(candidates: seq<int>, predict: int -> Result<Option<real>, int>, j: nat)
    requires j <= |candidates| && Scored(candidates[..j], predict).Err?
    ensures Scored(candidates, predict) == Scored(candidates[..j], predict)
  {
    if j < |candidates| {
      var n := |candidates| - 1;
      assert candidates[..n][..j] == candidates[..j];
      ScoredPrefixErr(candidates[..n], predict, j);
    } else {
      assert candidates[..j] == candidates;
    }
  }

  /** One more candidate predicted by the loop. */
  lemma ScoredNext(candidates: seq<int>, predict: int -> Result<Option<real>, int>, i: int)
    requires 0 <= i < |candidates|
    ensures Scored(candidates[..i + 1], predict) ==
              var front := Scored(candidates[..i], predict);
              if front.Err? then front
              else match predict(candidates[i])
                   case Err(e) => Err(e)
                   case Ok(v) => if v.Some? && v.value > 3.0 then Ok(front.value + [(candidates[i], v.value)]) else front
  {
    assert candidates[..i + 1][..i] == candidates[..i];
  }

  /** After `candidates[..i]`: `predicted` holds exactly the recommendable ones, with their predictions. */
  ghost predicate ScoredUpTo(predicted: seq<(int, real)>, candidates: seq<int>, i: int, predict: int -> Result<Option<real>, int>)
    requires 0 <= i <= |candidates|
  {
    && DistinctIds(predicted)
    && (forall x | x in predicted :: x.0 in candidates && x.0 !in candidates[i..] && 3.0 < x.1 <= 5.0 && predict(x.0) == Ok(Some(x.1)))
    && (forall q | 0 <= q < i && Recommendable(predict(candidates[q])) :: (candidates[q], predict(candidates[q]).value.value) in predicted)
  }

  lemma ScoredStep(predicted: seq<(int, real)>, candidates: seq<int>, i: int, predict: int -> Result<Option<real>, int>, p: Result<Option<real>, int>)
    requires Distinct(candidates) && 0 <= i < |candidates|
    requires ScoredUpTo(predicted, candidates, i, predict) && p == predict(candidates[i]) && p.Ok?
    requires p.value.Some? ==> p.value.value <= 5.0
    ensures ScoredUpTo(if p.value.Some? && p.value.value > 3.0 then predicted + [(candidates[i], p.value.value)] else predicted,
                       candidates, i + 1, predict)
  {
    DistinctTail(candidates, i);
  }

  lemma ScoredAll(predicted: seq<(int, real)>, candidates: seq<int>, predict: int -> Result<Option<real>, int>)
    requires ScoredUpTo(predicted, candidates, |candidates|, predict)
    ensures forall c | c in candidates && Recommendable(predict(c)) :: (c, predict(c).value.value) in predicted
  {
    forall c | c in candidates && Recommendable(predict(c)) ensures (c, predict(c).value.value) in predicted {
      var q :| 0 <= q < |candidates| && candidates[q] == c;
    }
  }

  /** `predicted.sort(key=lambda x: x[1], reverse=True)` then `predicted[:n]`: kept entries, best first, ids still distinct. */
  lemma RankPredicted(predicted: seq<(int, real)>, count: int)
    requires DistinctIds(predicted)
    ensures var top := Take(SortDesc(predicted, Score), count);
            && DistinctIds(top)
            && (forall q | 0 <= q < |top| :: top[q] in predicted)
            && (forall i, j | 0 <= i < j < |top| :: top[i].1 >= top[j].1)
            && (count >= 0 ==> |top| <= count)
  {
    var sorted := SortDesc(predicted, Score);
    PermutationDistinctIds(predicted, sorted);
    var top := Take(sorted, count);
    forall q | 0 <= q < |top| ensures top[q] in predicted {
      assert top[q] == sorted[q] && sorted[q] in multiset(predicted);
    }
    assert forall q | 0 <= q < |top| :: top[q] == sorted[q];
  }

  /** The cut keeps `min(count, |predicted|)` entries, and none left out scores above one kept. */
  lemma TopOfPredicted(predicted: seq<(int, real)>, count: int)
    ensures var top := Take(SortDesc(predicted, Score), count);
            && (count >= 0 ==> |top| == if count < |predicted| then count else |predicted|)
            && (forall c | c in predicted && c !in top :: forall x | x in top :: x.1 >= c.1)
  {
    var sorted := SortDesc(predicted, Score);
    assert |sorted| == |multiset(sorted)| == |multiset(predicted)| == |predicted|;
    forall c | c in predicted && c !in Take(sorted, count) ensures forall x | x in Take(sorted, count) :: x.1 >= c.1 {
      TakeSortedTop(predicted, Score, count, c);
    }
  }

  /** Entries drawn from the predicted list keep its properties. */
  lemma KeptPredictions(top: seq<(int, real)>, predicted: seq<(int, real)>, watched: set<int>, predict: int -> Result<Option<real>, int>)
    requires forall q | 0 <= q < |top| :: top[q] in predicted
    requires forall x | x in predicted :: x.0 !in watched && 3.0 < x.1 <= 5.0 && predict(x.0) == Ok(Some(x.1))
    ensures forall q | 0 <= q < |top| :: top[q].0 !in watched && 3.0 < top[q].1 <= 5.0 && predict(top[q].0) == Ok(Some(top[q].1))
  {
  }

  /** The predicted path: scores above 3.0 and at most 5, best first. */
  ghost predicate ScoredList(r: seq<(int, real)>)
  {
    && (forall i | 0 <= i < |r| :: 3.0 < r[i].1 <= 5.0)
    && (forall i, j | 0 <= i < j < |r| :: r[i].1 >= r[j].1)
  }

  /** The fallback path: popular movies with the placeholder score 0.0. */
  ghost predicate FallbackList(r: seq<(int, real)>, popular: seq<int>)
  {
    forall i | 0 <= i < |r| :: r[i].1 == 0.0 && r[i].0 in popular
  }

  /**
   * `generate_recommendations` once the matrix exists, as a function of the two
   * popularity lists it asks for (`popular`, the top 1000, and `fallback`, the
   * top 2·count), the user's ratings and the prediction of each movie.
   */
  function Recommendation(popular: seq<int>, fallback: seq<int>, watched: set<int>,
                          predict: int -> Result<Option<real>, int>, count: int): Result<seq<(int, real)>, int>
  {
    var scored := Scored(CandidateIds(popular, watched), predict);
    if scored.Err? then Err(scored.error)
    else if scored.value == [] then Ok(FallbackOf(fallback, watched, count))
    else Ok(Take(SortDesc(scored.value, Score), count))
  }

  /** Predictions stay within the clamp `max(1.0, min(5.0, prediction))`. */
  ghost predicate Clamped(predict: int -> Result<Option<real>, int>)
  {
    forall c :: predict(c).Ok? && predict(c).value.Some? ==> 1.0 <= predict(c).value.value <= 5.0
  }

  lemma PredictorClamped(sim: SimMatrix, table: Option<Table>, userRatings: Dict<int, real>, k: int)
    ensures Clamped(Predictor(sim, table, userRatings, k))
  {
    forall c {
      PredictionRange(sim, table, userRatings, c, k);
    }
  }

  /**
   * Which branch `generate_recommendations` takes: it raises the error of the
   * first candidate whose prediction raises; otherwise it falls back exactly
   * when no candidate is predicted above 3.0.
   */
  lemma RecommendationBranches(popular: seq<int>, fallback: seq<int>, watched: set<int>,
                               predict: int -> Result<Option<real>, int>, count: int)
    ensures var cands := CandidateIds(popular, watched);
            var r := Recommendation(popular, fallback, watched, predict, count);
            && (r.Err? <==> exists c | c in cands :: predict(c).Err?)
            && (r.Err? ==> exists i | 0 <= i < |cands| :: predict(cands[i]) == Err(r.error) && forall q | 0 <= q < i :: predict(cands[q]).Ok?)
            && (r.Ok? && (forall c | c in cands :: !Recommendable(predict(c))) ==> r.value == FallbackOf(fallback, watched, count))
            && (r.Ok? && (exists c | c in cands :: Recommendable(predict(c))) ==> r.value == Take(SortDesc(Scored(cands, predict).value, Score), count))
  {
    var cands := CandidateIds(popular, watched);
    ScoredOutcome(cands, predict);
    if Scored(cands, predict).Ok? {
      ScoredMembers(cands, predict);
    }
  }

  /**
   * On the predicted branch: the best `count` candidates predicted above 3.0,
   * best first, each with its prediction, no other candidate above 3.0 scoring higher.
   */
  lemma RankedRecommendation(popular: seq<int>, fallback: seq<int>, watched: set<int>,
                             predict: int -> Result<Option<real>, int>, count: int)
    requires Distinct(popular) && Clamped(predict)
    requires Scored(CandidateIds(popular, watched), predict).Ok?
    requires Scored(CandidateIds(popular, watched), predict).value != []
    ensures var predicted := Scored(CandidateIds(popular, watched), predict).value;
            var r := Recommendation(popular, fallback, watched, predict, count);
            && r.Ok? && ScoredList(r.value) && DistinctIds(r.value)
            && (count >= 0 ==> |r.value| == if count < |predicted| then count else |predicted|)
            && (forall i | 0 <= i < |r.value| :: r.value[i].0 !in watched && predict(r.value[i].0) == Ok(Some(r.value[i].1)))
            && (forall x | x in predicted && x !in r.value :: forall y | y in r.value :: y.1 >= x.1)
  {
    var cands := CandidateIds(popular, watched);
    var predicted := Scored(cands, predict).value;
    var top := Take(SortDesc(predicted, Score), count);
    assert Distinct(cands);
    ScoredMembers(cands, predict);
    RankPredicted(predicted, count);
    TopOfPredicted(predicted, count);
    forall q | 0 <= q < |top| ensures top[q].0 !in watched && 3.0 < top[q].1 <= 5.0 && predict(top[q].0) == Ok(Some(top[q].1)) {
      assert top[q] in predicted;
    }
  }

  /**
   * What every list `generate_recommendations` returns guarantees: no rated
   * movie, at most `count` entries, each movie once, and either predictions
   * above 3.0 best first or fallback entries from the popular list.
   */
  ghost predicate Recommended(r: seq<(int, real)>, watched: set<int>, fallback: seq<int>,
                              predict: int -> Result<Option<real>, int>, count: int)
  {
    && (forall i | 0 <= i < |r| :: r[i].0 !in watched)
    && (count >= 0 ==> |r| <= count)
    && DistinctIds(r)
    && (ScoredList(r) || FallbackList(r, fallback))
    && (ScoredList(r) ==> forall i | 0 <= i < |r| :: predict(r[i].0) == Ok(Some(r[i].1)))
  }

  /** The fallback list is the top 2·count popular movies, so it is empty when `count <= 0`. */
  lemma FallbackRecommended(fallback: seq<int>, watched: set<int>, predict: int -> Result<Option<real>, int>, count: int)
    requires Distinct(fallback) && (count <= 0 ==> fallback == [])
    ensures Recommended(FallbackOf(fallback, watched, count), watched, fallback, predict, count)
  {
    var r := FallbackOf(fallback, watched, count);
    FallbackContents(fallback, watched, count);
    assert count <= 0 ==> r == [];
    assert FallbackList(r, fallback) by {
      forall i | 0 <= i < |r| ensures r[i].1 == 0.0 && r[i].0 in fallback {
        assert r[i] in r;
      }
    }
  }

  /** Every outcome of `generate_recommendations` that is not an error. */
  lemma RecommendationFacts(popular: seq<int>, fallback: seq<int>, watched: set<int>,
                            predict: int -> Result<Option<real>, int>, count: int)
    requires Distinct(popular) && Distinct(fallback) && Clamped(predict)
    requires count <= 0 ==> fallback == []
    ensures Recommendation(popular, fallback, watched, predict, count).Ok? ==>
              Recommended(Recommendation(popular, fallback, watched, predict, count).value, watched, fallback, predict, count)
  {
    var scored := Scored(CandidateIds(popular, watched), predict);
    if scored.Ok? && scored.value == [] {
      FallbackRecommended(fallback, watched, predict, count);
    } else if scored.Ok? {
      RankedRecommendation(popular, fallback, watched, predict, count);
    }
  }

  class CollaborativeFiltering {
    const dp: DataProcessor
    const minCommonUsers: int
    const topK: int
    var sim: SimMatrix
    var built: bool

    constructor (dp: DataProcessor, minCommonUsers: int, topK: int)
      ensures this.dp == dp && this.minCommonUsers == minCommonUsers && this.topK == topK
      ensures sim == map[] && !built
    {
      this.dp := dp;
      this.minCommonUsers := minCommonUsers;
      this.topK := topK;
      sim := map[];
      built := false;
    }

    /** `build_item_similarity`; it indexes the ratings frame, so one must have been read. */
    method BuildItemSimilarity(sqrt: real -> real)
      requires dp.ratings.Some?
      modifies this
      ensures IsBuiltMatrix(sim, Unique(MovieIds(dp.ratings.value)), ItemSimilarities(dp.ratings.value, minCommonUsers, sqrt))
      ensures built == old(built)
    {
      var ratings := dp.ratings.value;
      var movieIds := Unique(MovieIds(ratings));
      sim := FillMatrix(movieIds, ItemSimilarities(ratings, minCommonUsers, sqrt));
    }

    /** `_load_from_cache`, given the record read from the cache file (None when there is none or it does not unpickle). */
    method LoadFromCache(cache: Option<CacheRecord>) returns (loaded: bool)
      modifies this
      ensures loaded <==> CacheHit(cache, minCommonUsers, topK)
      ensures loaded ==> sim == cache.value.sim.value
      ensures !loaded ==> sim == old(sim)
      ensures built == old(built)
    {
      if cache.Some? && CacheMatches(cache.value, minCommonUsers, topK) && cache.value.sim.Some? {
        sim := cache.value.sim.value;
        return true;
      }
      return false;
    }

    /**
     * `_ensure_built`, run without interleaving: adopt a matching cache or build
     * and save. Returns the record written to the cache file, if any.
     */
    method EnsureBuilt(cache: Option<CacheRecord>, sqrt: real -> real) returns (saved: Option<CacheRecord>)
      requires built || CacheHit(cache, minCommonUsers, topK) || dp.ratings.Some?
      modifies this
      ensures built
      ensures old(built) ==> sim == old(sim) && saved.None?
      ensures !old(built) && CacheHit(cache, minCommonUsers, topK) ==> sim == cache.value.sim.value && saved.None?
      ensures !old(built) && !CacheHit(cache, minCommonUsers, topK) ==>
                && IsBuiltMatrix(sim, Unique(MovieIds(dp.ratings.value)), ItemSimilarities(dp.ratings.value, minCommonUsers, sqrt))
                && saved == Some(SaveRecord(sim, minCommonUsers, topK))
    {
      if built {
        return None;
      }
      var loaded := LoadFromCache(cache);
      if loaded {
        built := true;
        return None;
      }
      BuildItemSimilarity(sqrt);
      saved := Some(SaveRecord(sim, minCommonUsers, topK));
      built := true;
    }

    /** `predict_rating`; `k` None stands for the default `top_k`. */
    method PredictRating(userRatings: Dict<int, real>, item: int, k: Option<int>) returns (r: Result<Option<real>, int>)
      ensures r == Prediction(sim, dp.table, userRatings, item, if k.None? then topK else k.value)
    {
      var limit := if k.None? then topK else k.value;
      if userRatings == [] {
        return Ok(None);
      }
      var similarities := GatherCandidates(SimRow(sim, item), userRatings);
      if similarities == [] {
        return Ok(None);
      }
      var ns := Take(SortDesc(similarities, Affinity), limit);
      var table := dp.table;
      if table.None? || item !in table.value.movies {
        return Ok(None);
      }
      r := EstimateRating(ns, table.value, item);
    }

    /**
     * The loop of `generate_recommendations` that predicts every candidate and
     * keeps those predicted above 3.0, in candidate order.
     */
    method ScoreCandidates(virtualRatings: Dict<int, real>, candidates: seq<int>) returns (r: Result<seq<(int, real)>, int>)
      requires Distinct(candidates)
      ensures r.Ok? ==> DistinctIds(r.value)
      ensures r.Ok? ==> forall x | x in r.value ::
                x.0 in candidates && 3.0 < x.1 <= 5.0 && Prediction(sim, dp.table, virtualRatings, x.0, topK) == Ok(Some(x.1))
      ensures r.Ok? ==> forall c | c in candidates && Recommendable(Prediction(sim, dp.table, virtualRatings, c, topK)) ::
                (c, Prediction(sim, dp.table, virtualRatings, c, topK).value.value) in r.value
      ensures r.Err? ==> exists c | c in candidates :: Prediction(sim, dp.table, virtualRatings, c, topK) == Err(r.error)
      ensures r == Scored(candidates, Predictor(sim, dp.table, virtualRatings, topK))
    {
      ghost var predict := Predictor(sim, dp.table, virtualRatings, topK);
      var predicted: seq<(int, real)> := [];
      var i := 0;
      while i < |candidates|
        invariant 0 <= i <= |candidates|
        invariant ScoredUpTo(predicted, candidates, i, predict)
        invariant Scored(candidates[..i], predict) == Ok(predicted)
      {
        var itemId := candidates[i];
        var pred := PredictRating(virtualRatings, itemId, None);
        ScoredNext(candidates, predict, i);
        if pred.Err? {
          ScoredPrefixErr(candidates, predict, i + 1);
          return Err(pred.error);
        }
        PredictionRange(sim, dp.table, virtualRatings, itemId, topK);
        ScoredStep(predicted, candidates, i, predict, pred);
        if pred.value.Some? && pred.value.value > 3.0 {
          predicted := predicted + [(itemId, pred.value.value)];
        }
        i := i + 1;
      }
      ScoredAll(predicted, candidates, predict);
      assert candidates[..i] == candidates;
      return Ok(predicted);
    }

    /**
     * `generate_recommendations`. A KeyError raised by a prediction escapes as
     * Err; `cache` is what the cache file holds if the matrix must be built.
     */
    method GenerateRecommendations(virtualRatings: Dict<int, real>, count: int, cache: Option<CacheRecord>, sqrt: real -> real)
      returns (r: Result<seq<(int, real)>, int>, saved: Option<CacheRecord>)
      requires built || CacheHit(cache, minCommonUsers, topK) || dp.ratings.Some?
      modifies this
      ensures built
      ensures old(built) ==> sim == old(sim) && saved.None?
      ensures !old(built) && CacheHit(cache, minCommonUsers, topK) ==> sim == cache.value.sim.value && saved.None?
      ensures !old(built) && !CacheHit(cache, minCommonUsers, topK) ==>
                && IsBuiltMatrix(sim, Unique(MovieIds(dp.ratings.value)), ItemSimilarities(dp.ratings.value, minCommonUsers, sqrt))
                && saved == Some(SaveRecord(sim, minCommonUsers, topK))
      ensures r.Ok? ==> forall i | 0 <= i < |r.value| :: r.value[i].0 !in Keys(virtualRatings)
      ensures r.Ok? && count >= 0 ==> |r.value| <= count
      ensures r.Ok? ==> DistinctIds(r.value)
      ensures r.Ok? ==> ScoredList(r.value) || FallbackList(r.value, dp.GetTopPopularMovies(count * 2))
      ensures r.Ok? && ScoredList(r.value) ==>
                forall i | 0 <= i < |r.value| :: Prediction(sim, dp.table, virtualRatings, r.value[i].0, topK) == Ok(Some(r.value[i].1))
      ensures r == Recommendation(dp.GetTopPopularMovies(1000), dp.GetTopPopularMovies(count * 2), Keys(virtualRatings),
                                  Predictor(sim, dp.table, virtualRatings, topK), count)
    {
      saved := EnsureBuilt(cache, sqrt);
      r := Recommend(virtualRatings, count);
    }

    /** The fallback branch of `generate_recommendations`: unwatched popular movies with score 0.0. */
    method Fallback(virtualRatings: Dict<int, real>, count: int) returns (result: seq<(int, real)>)
      ensures FallbackList(result, dp.GetTopPopularMovies(count * 2))
      ensures forall i | 0 <= i < |result| :: result[i].0 !in Keys(virtualRatings)
      ensures DistinctIds(result)
      ensures count >= 0 ==> |result| <= count
      ensures count >= 1 && |result| < count ==>
                forall m | m in dp.GetTopPopularMovies(count * 2) && m !in Keys(virtualRatings) :: (m, 0.0) in result
      ensures result == FallbackOf(dp.GetTopPopularMovies(count * 2), Keys(virtualRatings), count)
    {
      var popular := dp.GetTopPopularMovies(count * 2);
      result := PopularFallback(popular, Keys(virtualRatings), count);
      FallbackContents(popular, Keys(virtualRatings), count);
    }

    /** `generate_recommendations` once the matrix is built. */
    method Recommend(virtualRatings: Dict<int, real>, count: int) returns (r: Result<seq<(int, real)>, int>)
      ensures r.Ok? ==> forall i | 0 <= i < |r.value| :: r.value[i].0 !in Keys(virtualRatings)
      ensures r.Ok? && count >= 0 ==> |r.value| <= count
      ensures r.Ok? ==> DistinctIds(r.value)
      ensures r.Ok? ==> ScoredList(r.value) || FallbackList(r.value, dp.GetTopPopularMovies(count * 2))
      ensures r.Ok? && ScoredList(r.value) ==>
                forall i | 0 <= i < |r.value| :: Prediction(sim, dp.table, virtualRatings, r.value[i].0, topK) == Ok(Some(r.value[i].1))
      ensures r == Recommendation(dp.GetTopPopularMovies(1000), dp.GetTopPopularMovies(count * 2), Keys(virtualRatings),
                                  Predictor(sim, dp.table, virtualRatings, topK), count)
    {
      var popular := dp.GetTopPopularMovies(1000);
      var candidates := CandidateIds(popular, Keys(virtualRatings));
      var scored := ScoreCandidates(virtualRatings, candidates);
      if scored.Err? {
        r := Err(scored.error);
      } else if scored.value == [] {
        var fallback := Fallback(virtualRatings, count);
        r := Ok(fallback);
      } else {
        r := Ok(Take(SortDesc(scored.value, Score), count));
      }
      PredictorClamped(sim, dp.table, virtualRatings, topK);
      RecommendationFacts(popular, dp.GetTopPopularMovies(count * 2), Keys(virtualRatings), Predictor(sim, dp.table, virtualRatings, topK), count);
    }
  }
}
