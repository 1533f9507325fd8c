/**
 * The two Pearson similarities of the recommender (lab03/similarity.py).
 *
 * The item version filters the rating rows of each movie, inner-joins them on
 * the user id (a user with several rows for a movie contributes every
 * combination) and correlates the two rating columns of the join. The user
 * version correlates two rating dictionaries over their shared keys.
 * `math.sqrt` is the parameter `sqrt`; results about the value of a
 * correlation assume `Stats.IsSqrt(sqrt)`.
 */
module Similarity {
  import opened Wrappers
  import opened Dicts
  import opened Stats
  import opened Seqs

  /** One row of the ratings table: `user_id`, `movie_id`, `rating`. */
  datatype Rating = Rating(user: int, movie: int, rating: real)

  /** A row of one movie's slice: (`user_id`, `rating`). */
  type Row = (int, real)

  /** `ratings_df[ratings_df['movie_id'] == movie][['user_id', 'rating']]`, in table order. */
  function RowsOf(ratings: seq<Rating>, movie: int): (r: seq<Row>)
    ensures |r| <= |ratings|
    ensures r == [] <==> forall i | 0 <= i < |ratings| :: ratings[i].movie != movie
    ensures forall u, x :: multiset(r)[(u, x)] == multiset(ratings)[Rating(u, movie, x)]
    ensures forall u, x :: (u, x) in r <==> Rating(u, movie, x) in ratings
  {
    if ratings == [] then []
    else
      var n := |ratings| - 1;
      assert ratings == ratings[..n] + [ratings[n]];
      var front := RowsOf(ratings[..n], movie);
      if ratings[n].movie == movie then front + [(ratings[n].user, ratings[n].rating)] else front
  }

  /** The rows of `right` with the user of `l`, paired as (rating of `l`, rating of the row). */
  function Matches(l: Row, right: seq<Row>): seq<(real, real)>
  {
    if right == [] then []
    else
      var n := |right| - 1;
      Matches(l, right[..n]) + (if right[n].0 == l.0 then [(l.1, right[n].1)] else [])
  }

  /** `pd.merge(left, right, on='user_id', how='inner')`: left rows in order, each with its matches. */
  function Join(left: seq<Row>, right: seq<Row>): seq<(real, real)>
  {
    if left == [] then []
    else
      var n := |left| - 1;
      Join(left[..n], right) + Matches(left[n], right)
  }

  function Firsts(ps: seq<(real, real)>): (r: seq<real>)
    ensures |r| == |ps| && forall i | 0 <= i < |ps| :: r[i] == ps[i].0
  {
    seq(|ps|, i requires 0 <= i < |ps| => ps[i].0)
  }

  function Seconds(ps: seq<(real, real)>): (r: seq<real>)
    ensures |r| == |ps| && forall i | 0 <= i < |ps| :: r[i] == ps[i].1
  {
    seq(|ps|, i requires 0 <= i < |ps| => ps[i].1)
  }

  /** Pearson correlation of the two columns of a sequence of pairs. */
  function PairPearson(ps: seq<(real, real)>, sqrt: real -> real): Option<real>
  {
    Pearson(Firsts(ps), Seconds(ps), sqrt)
  }

  /** `pearson_item_similarity(itemI, itemJ, ratings, minCommon)` */
  function ItemSimilarity(itemI: int, itemJ: int, ratings: seq<Rating>, minCommon: int, sqrt: real -> real): Option<real>
  {
    var dfI, dfJ := RowsOf(ratings, itemI), RowsOf(ratings, itemJ);
    if dfI == [] || dfJ == [] then None
    else
      var merged := Join(dfI, dfJ);
      if |merged| < minCommon then None
      else PairPearson(merged, sqrt)
  }

  // ---------------------------------------------------------------- sums over pairs

  function Total(ps: seq<(real, real)>, f: (real, real) -> real): real
  {
    if ps == [] then 0.0 else Total(ps[..|ps| - 1], f) + f(ps[|ps| - 1].0, ps[|ps| - 1].1)
  }

  lemma {:induction false} TotalAppend(a: seq<(real, real)>, b: seq<(real, real)>, f: (real, real) -> real)
    ensures Total(a + b, f) == Total(a, f) + Total(b, f)
  {
    if b != [] {
      var n := |b| - 1;
      TotalAppend(a, b[..n], f);
      assert (a + b)[..|a + b| - 1] == a + b[..n];
      assert (a + b)[|a + b| - 1] == b[n];
      assert Total(a + b, f) == Total(a + b[..n], f) + f(b[n].0, b[n].1);
    } else {
      assert a + b == a;
    }
  }

  /** Taking one pair out of a sum over pairs. */
  lemma TotalRemove(qs: seq<(real, real)>, k: nat, f: (real, real) -> real)
    requires k < |qs|
    ensures Total(qs, f) == Total(qs[..k] + qs[k + 1..], f) + f(qs[k].0, qs[k].1)
  {
    var upto, front, back := qs[..k + 1], qs[..k], qs[k + 1..];
    assert qs == upto + back;
    assert upto[..k] == front;
    TotalAppend(upto, back, f);
    TotalAppend(front, back, f);
  }

  /** A sum over pairs does not depend on their order. */
  lemma {:induction false} TotalPermutation(ps: seq<(real, real)>, qs: seq<(real, real)>, f: (real, real) -> real)
    requires multiset(ps) == multiset(qs)
    ensures Total(ps, f) == Total(qs, f)
    decreases |ps|
  {
    if ps == [] {
      assert |qs| == |multiset(qs)| == 0;
    } else {
      var n := |ps| - 1;
      var x, front := ps[n], ps[..n];
      assert ps == front + [x];
      assert x in multiset(qs);
      var k := IndexOf(qs, x);
      var rest := qs[..k] + qs[k + 1..];
      RemoveAt(qs, k);
      TotalPermutation(front, rest, f);
      TotalRemove(qs, k, f);
    }
  }

  lemma {:induction false} SumFirsts(ps: seq<(real, real)>)
    ensures Sum(Firsts(ps)) == Total(ps, (a, b) => a)
  {
    if ps != [] {
      var n := |ps| - 1;
      SumFirsts(ps[..n]);
      assert Firsts(ps)[..n] == Firsts(ps[..n]);
    }
  }

  lemma {:induction false} SumSeconds(ps: seq<(real, real)>)
    ensures Sum(Seconds(ps)) == Total(ps, (a, b) => b)
  {
    if ps != [] {
      var n := |ps| - 1;
      SumSeconds(ps[..n]);
      assert Seconds(ps)[..n] == Seconds(ps[..n]);
    }
  }

  lemma {:induction false} CrossDevTotal(ps: seq<(real, real)>, mx: real, my: real)
    ensures CrossDev(Firsts(ps), Seconds(ps), mx, my) == Total(ps, (a, b) => (a - mx) * (b - my))
  {
    if ps != [] {
      var n := |ps| - 1;
      CrossDevTotal(ps[..n], mx, my);
      assert Firsts(ps)[..n] == Firsts(ps[..n]);
      assert Seconds(ps)[..n] == Seconds(ps[..n]);
      assert Firsts(ps)[..n + 1] == Firsts(ps) && Seconds(ps)[..n + 1] == Seconds(ps);
      CrossDevPrefix(Firsts(ps), Seconds(ps), mx, my, n);
    }
  }

  lemma {:induction false} SquareDevFirstsTotal(ps: seq<(real, real)>, m: real)
    ensures SquareDev(Firsts(ps), m) == Total(ps, (a, b) => (a - m) * (a - m))
  {
    if ps != [] {
      var n := |ps| - 1;
      SquareDevFirstsTotal(ps[..n], m);
      assert Firsts(ps)[..n] == Firsts(ps[..n]);
      assert Firsts(ps)[..n + 1] == Firsts(ps);
      SquareDevPrefix(Firsts(ps), m, n);
    }
  }

  lemma {:induction false} SquareDevSecondsTotal(ps: seq<(real, real)>, m: real)
    ensures SquareDev(Seconds(ps), m) == Total(ps, (a, b) => (b - m) * (b - m))
  {
    if ps != [] {
      var n := |ps| - 1;
      SquareDevSecondsTotal(ps[..n], m);
      assert Seconds(ps)[..n] == Seconds(ps[..n]);
      assert Seconds(ps)[..n + 1] == Seconds(ps);
      SquareDevPrefix(Seconds(ps), m, n);
    }
  }

  /** The correlation of a sequence of pairs depends only on the multiset of pairs. */
  lemma PairPearsonPermutation(ps: seq<(real, real)>, qs: seq<(real, real)>, sqrt: real -> real)
    requires multiset(ps) == multiset(qs)
    ensures PairPearson(ps, sqrt) == PairPearson(qs, sqrt)
  {
    assert |ps| == |multiset(ps)| == |qs|;
    SumFirsts(ps);
    SumFirsts(qs);
    TotalPermutation(ps, qs, (a, b) => a);
    SumSeconds(ps);
    SumSeconds(qs);
    TotalPermutation(ps, qs, (a, b) => b);
    var mx, my := Mean(Firsts(ps)), Mean(Seconds(ps));
    assert mx == Mean(Firsts(qs)) && my == Mean(Seconds(qs));
    CrossDevTotal(ps, mx, my);
    CrossDevTotal(qs, mx, my);
    TotalPermutation(ps, qs, (a, b) => (a - mx) * (b - my));
    SquareDevFirstsTotal(ps, mx);
    SquareDevFirstsTotal(qs, mx);
    TotalPermutation(ps, qs, (a, b) => (a - mx) * (a - mx));
    SquareDevSecondsTotal(ps, my);
    SquareDevSecondsTotal(qs, my);
    TotalPermutation(ps, qs, (a, b) => (b - my) * (b - my));
  }

  // ---------------------------------------------------------------- the join, swapped

  function SwapAll(ps: seq<(real, real)>): (r: seq<(real, real)>)
    ensures |r| == |ps| && forall i | 0 <= i < |ps| :: r[i] == (ps[i].1, ps[i].0)
  {
    seq(|ps|, i requires 0 <= i < |ps| => (ps[i].1, ps[i].0))
  }

  lemma SwapAllAppend(a: seq<(real, real)>, b: seq<(real, real)>)
    ensures SwapAll(a + b) == SwapAll(a) + SwapAll(b)
  {
  }

  /** Adding a row on the right adds, swapped, that row's matches among the left rows. */
  lemma {:induction false} JoinExtendRight(left: seq<Row>, right: seq<Row>, r: Row)
    ensures multiset(SwapAll(Join(left, right + [r])))
         == multiset(SwapAll(Join(left, right))) + multiset(Matches(r, left))
  {
    if left != [] {
      var n := |left| - 1;
      var l := left[n];
      JoinExtendRight(left[..n], right, r);
      assert (right + [r])[..|right|] == right;
      var extra := if r.0 == l.0 then [(l.1, r.1)] else [];
      assert Matches(l, right + [r]) == Matches(l, right) + extra;
      SwapAllAppend(Join(left[..n], right + [r]), Matches(l, right + [r]));
      SwapAllAppend(Matches(l, right), extra);
      SwapAllAppend(Join(left[..n], right), Matches(l, right));
      assert SwapAll(extra) == if l.0 == r.0 then [(r.1, l.1)] else [];
    }
  }

  lemma JoinNoRight(left: seq<Row>)
    ensures Join(left, []) == []
  {
  }

  /** Joining the other way round gives the same pairs, each swapped. */
  lemma {:induction false} JoinSwap(left: seq<Row>, right: seq<Row>)
    ensures multiset(Join(right, left)) == multiset(SwapAll(Join(left, right)))
  {
    if right == [] {
      JoinNoRight(left);
    } else {
      var n := |right| - 1;
      JoinSwap(left, right[..n]);
      assert right == right[..n] + [right[n]];
      JoinExtendRight(left, right[..n], right[n]);
      assert Join(right, left) == Join(right[..n], left) + Matches(right[n], left);
      assert multiset(Join(right, left)) == multiset(Join(right[..n], left)) + multiset(Matches(right[n], left));
    }
  }

  // ---------------------------------------------------------------- item similarity properties

  /** A defined item similarity rests on at least `minCommon` joined rows, and never on fewer than two. */
  lemma ItemSimilaritySupport(itemI: int, itemJ: int, ratings: seq<Rating>, minCommon: int, sqrt: real -> real)
    ensures ItemSimilarity(itemI, itemJ, ratings, minCommon, sqrt).Some? ==>
              var merged := Join(RowsOf(ratings, itemI), RowsOf(ratings, itemJ));
              && RowsOf(ratings, itemI) != [] && RowsOf(ratings, itemJ) != []
              && |merged| >= minCommon && |merged| >= 2
  {
    var merged := Join(RowsOf(ratings, itemI), RowsOf(ratings, itemJ));
    if ItemSimilarity(itemI, itemJ, ratings, minCommon, sqrt).Some? {
      PearsonSupport(Firsts(merged), Seconds(merged), sqrt);
    }
  }

  /**
   * With a true square root the item similarity is defined exactly when both
   * movies have rows, the join has at least `minCommon` rows, and neither
   * rating column of the join is constant.
   */
  lemma ItemSimilarityDefined(itemI: int, itemJ: int, ratings: seq<Rating>, minCommon: int, sqrt: real -> real)
    requires IsSqrt(sqrt)
    ensures var merged := Join(RowsOf(ratings, itemI), RowsOf(ratings, itemJ));
            ItemSimilarity(itemI, itemJ, ratings, minCommon, sqrt).Some?
            <==> && RowsOf(ratings, itemI) != [] && RowsOf(ratings, itemJ) != []
                 && |merged| >= minCommon && |merged| > 0
                 && !Constant(Firsts(merged)) && !Constant(Seconds(merged))
  {
    var merged := Join(RowsOf(ratings, itemI), RowsOf(ratings, itemJ));
    PearsonDefined(Firsts(merged), Seconds(merged), sqrt);
  }

  /** In exact arithmetic a defined item similarity lies in [-1, 1]. */
  lemma ItemSimilarityRange(itemI: int, itemJ: int, ratings: seq<Rating>, minCommon: int, sqrt: real -> real)
    requires IsSqrt(sqrt)
    ensures var s := ItemSimilarity(itemI, itemJ, ratings, minCommon, sqrt);
            s.Some? ==> -1.0 <= s.value <= 1.0
  {
    var merged := Join(RowsOf(ratings, itemI), RowsOf(ratings, itemJ));
    PearsonRange(Firsts(merged), Seconds(merged), sqrt);
  }

  /** Swapping the two movies gives the same similarity. */
  lemma ItemSimilaritySwap(itemI: int, itemJ: int, ratings: seq<Rating>, minCommon: int, sqrt: real -> real)
    ensures ItemSimilarity(itemJ, itemI, ratings, minCommon, sqrt)
         == ItemSimilarity(itemI, itemJ, ratings, minCommon, sqrt)
  {
    var dfI, dfJ := RowsOf(ratings, itemI), RowsOf(ratings, itemJ);
    var ij, ji := Join(dfI, dfJ), Join(dfJ, dfI);
    JoinSwap(dfI, dfJ);
    assert |ji| == |multiset(ji)| == |SwapAll(ij)| == |ij|;
    PairPearsonPermutation(ji, SwapAll(ij), sqrt);
    assert Firsts(SwapAll(ij)) == Seconds(ij);
    assert Seconds(SwapAll(ij)) == Firsts(ij);
    PearsonSwap(Firsts(ij), Seconds(ij), sqrt);
  }

  /** When the two rating columns of the join coincide, a defined similarity is exactly 1. */
  lemma ItemSimilarityIdentical(itemI: int, itemJ: int, ratings: seq<Rating>, minCommon: int, sqrt: real -> real)
    requires IsSqrt(sqrt)
    requires var merged := Join(RowsOf(ratings, itemI), RowsOf(ratings, itemJ));
             Firsts(merged) == Seconds(merged)
    ensures var s := ItemSimilarity(itemI, itemJ, ratings, minCommon, sqrt);
            s.Some? ==> s == Some(1.0)
  {
    var merged := Join(RowsOf(ratings, itemI), RowsOf(ratings, itemJ));
    PearsonIdentical(Firsts(merged), sqrt);
  }

  // ---------------------------------------------------------------- user similarity

  /** The keys of `u` that `v` also has, in `u`'s order. */
  function Shared(u: Dict<int, real>, v: Dict<int, real>): (r: seq<int>)
    ensures forall k :: k in r <==> k in Keys(u) && k in Keys(v)
    decreases |u|
  {
    if u == [] then []
    else if u[0].0 in Keys(v) then [u[0].0] + Shared(u[1..], v)
    else Shared(u[1..], v)
  }

  /**
   * `set(u.keys()) & set(v.keys())`, enumerated in ascending order: Python leaves
   * the iteration order of a set to the implementation, and the sums over it do
   * not depend on it in exact arithmetic.
   */
  function CommonKeys(u: Dict<int, real>, v: Dict<int, real>): (r: seq<int>)
    ensures StrictlyIncreasing(r)
    ensures forall k :: k in r <==> k in Keys(u) && k in Keys(v)
  {
    Ascending(Shared(u, v))
  }

  /** `[d[k] for k in keys]` */
  function Values(d: Dict<int, real>, keys: seq<int>): (r: seq<real>)
    requires forall i | 0 <= i < |keys| :: keys[i] in Keys(d)
    ensures |r| == |keys|
    ensures forall i | 0 <= i < |keys| :: Some(r[i]) == Get(d, keys[i])
  {
    seq(|keys|, i requires 0 <= i < |keys| && keys[i] in Keys(d) => Get(d, keys[i]).value)
  }

  /** The value `user_pearson_similarity(u, v, minCommon)` returns. */
  function UserSimilarity(u: Dict<int, real>, v: Dict<int, real>, minCommon: int, sqrt: real -> real): Option<real>
    requires minCommon >= 1 || |CommonKeys(u, v)| > 0
  {
    var common := CommonKeys(u, v);
    if |common| < minCommon then None
    else Pearson(Values(u, common), Values(v, common), sqrt)
  }

  /**
   * The zip loop of `user_pearson_similarity`: the centred cross product and the
   * two centred sums of squares, accumulated pair by pair.
   */
  method Deviations(xs: seq<real>, ys: seq<real>, mx: real, my: real) returns (num: real, dx: real, dy: real)
    requires |xs| == |ys|
    ensures num == CrossDev(xs, ys, mx, my)
    ensures dx == SquareDev(xs, mx) && dy == SquareDev(ys, my)
  {
    num, dx, dy := 0.0, 0.0, 0.0;
    var i := 0;
    while i < |xs|
      invariant 0 <= i <= |xs|
      invariant num == CrossDev(xs[..i], ys[..i], mx, my)
      invariant dx == SquareDev(xs[..i], mx)
      invariant dy == SquareDev(ys[..i], my)
    {
      var a := xs[i] - mx;
      var b := ys[i] - my;
      CrossDevPrefix(xs, ys, mx, my, i);
      SquareDevPrefix(xs, mx, i);
      SquareDevPrefix(ys, my, i);
      num := num + a * b;
      dx := dx + a * a;
      dy := dy + b * b;
      i := i + 1;
    }
    assert xs[..i] == xs && ys[..i] == ys;
  }

  /**
   * `user_pearson_similarity`. With no common key and `minCommon <= 0` the
   * source divides by zero; callers must not do that.
   */
  method UserPearsonSimilarity(u: Dict<int, real>, v: Dict<int, real>, minCommon: int, sqrt: real -> real)
    returns (r: Option<real>)
    requires minCommon >= 1 || |CommonKeys(u, v)| > 0
    ensures r == UserSimilarity(u, v, minCommon, sqrt)
  {
    var common := CommonKeys(u, v);
    if |common| < minCommon {
      return None;
    }
    var uVals := Values(u, common);
    var vVals := Values(v, common);
    var meanU := Mean(uVals);
    var meanV := Mean(vVals);
    var num, denU, denV := Deviations(uVals, vVals, meanU, meanV);
    assert UserSimilarity(u, v, minCommon, sqrt) == Correlation(num, denU, denV, sqrt);
    if denU <= 0.0 || denV <= 0.0 {
      return None;
    }
    var denom := sqrt(denU) * sqrt(denV);
    CorrelationAt(num, denU, denV, sqrt, denom);
    if denom == 0.0 {
      return None;
    }
    return Some(num / denom);
  }

  /** Swapping the two users gives the same similarity. */
  lemma UserSimilaritySwap(u: Dict<int, real>, v: Dict<int, real>, minCommon: int, sqrt: real -> real)
    requires minCommon >= 1 || |CommonKeys(u, v)| > 0
    ensures |CommonKeys(v, u)| == |CommonKeys(u, v)|
    ensures UserSimilarity(v, u, minCommon, sqrt) == UserSimilarity(u, v, minCommon, sqrt)
  {
    IncreasingUnique(CommonKeys(u, v), CommonKeys(v, u));
    var common := CommonKeys(u, v);
    PearsonSwap(Values(u, common), Values(v, common), sqrt);
  }

  /**
   * Only the entries under keys both users have matter: users that agree with
   * `u` and `v` on those keys, and share exactly those keys, get the same result.
   */
  lemma UserSimilarityLocal(u: Dict<int, real>, v: Dict<int, real>, u': Dict<int, real>, v': Dict<int, real>,
                            minCommon: int, sqrt: real -> real)
    requires minCommon >= 1 || |CommonKeys(u, v)| > 0
    requires forall k :: (k in Keys(u) && k in Keys(v)) <==> (k in Keys(u') && k in Keys(v'))
    requires forall k | k in Keys(u) && k in Keys(v) :: Get(u', k) == Get(u, k) && Get(v', k) == Get(v, k)
    ensures |CommonKeys(u', v')| == |CommonKeys(u, v)|
    ensures UserSimilarity(u', v', minCommon, sqrt) == UserSimilarity(u, v, minCommon, sqrt)
  {
    var common := CommonKeys(u, v);
    IncreasingUnique(common, CommonKeys(u', v'));
    assert Values(u', common) == Values(u, common);
    assert Values(v', common) == Values(v, common);
  }

  /** With a true square root the user similarity is defined exactly when the shared ratings vary on both sides. */
  lemma UserSimilarityDefined(u: Dict<int, real>, v: Dict<int, real>, minCommon: int, sqrt: real -> real)
    requires minCommon >= 1 || |CommonKeys(u, v)| > 0
    requires IsSqrt(sqrt)
    ensures var common := CommonKeys(u, v);
            UserSimilarity(u, v, minCommon, sqrt).Some?
            <==> |common| >= minCommon && |common| > 0
                 && !Constant(Values(u, common)) && !Constant(Values(v, common))
    ensures UserSimilarity(u, v, minCommon, sqrt).Some? ==> |CommonKeys(u, v)| >= 2
  {
    var common := CommonKeys(u, v);
    PearsonDefined(Values(u, common), Values(v, common), sqrt);
  }

  /** In exact arithmetic a defined user similarity lies in [-1, 1]. */
  lemma UserSimilarityRange(u: Dict<int, real>, v: Dict<int, real>, minCommon: int, sqrt: real -> real)
    requires minCommon >= 1 || |CommonKeys(u, v)| > 0
    requires IsSqrt(sqrt)
    ensures var s := UserSimilarity(u, v, minCommon, sqrt);
            s.Some? ==> -1.0 <= s.value <= 1.0
  {
    var common := CommonKeys(u, v);
    PearsonRange(Values(u, common), Values(v, common), sqrt);
  }

  /** Users who gave the same rating to every shared movie correlate exactly 1 when defined. */
  lemma UserSimilarityIdentical(u: Dict<int, real>, v: Dict<int, real>, minCommon: int, sqrt: real -> real)
    requires minCommon >= 1 || |CommonKeys(u, v)| > 0
    requires IsSqrt(sqrt)
    requires forall k | k in Keys(u) && k in Keys(v) :: Get(u, k) == Get(v, k)
    ensures var s := UserSimilarity(u, v, minCommon, sqrt);
            s.Some? ==> s == Some(1.0)
  {
    var common := CommonKeys(u, v);
    assert Values(u, common) == Values(v, common);
    PearsonIdentical(Values(u, common), sqrt);
  }
}
