/**
 * The MovieLens repository of the recommender (lab03/data_handler.py): the
 * ratings table, the user x movie pivot table with 0 as the "not rated" mark,
 * the titles and genres of the item file, and the lookups over them.
 *
 * Reading `u.data` and `u.item` is outside the model: `LoadData` receives the
 * rows pandas would have parsed, or the failure to read them.
 */
module DataHandler {
  import opened Wrappers
  import opened Dicts
  import opened Stats
  import opened Seqs
  import Text
  import opened Similarity

  /** The genre columns of `u.item`, in file order. */
  const GenreNames: seq<string> := [
    "unknown", "Action", "Adventure", "Animation", "Children's",
    "Comedy", "Crime", "Documentary", "Drama", "Fantasy",
    "Film-Noir", "Horror", "Musical", "Mystery", "Romance",
    "Sci-Fi", "Thriller", "War", "Western"
  ]

  /** Title of a movie the item file does not name: `f"Фильм {movie_id}"`. */
  const FallbackPrefix: string := "Фильм "

  /**
   * One parsed line of `u.item`: the movie id (None when the field is not a
   * number, so that `int()` fails on it), the title and the genre flag fields.
   * A flag field the line lacks, or one that is not a number, is anything but 1.
   */
  datatype ItemRow = ItemRow(movieId: Option<int>, title: string, flags: seq<int>)

  /** The outcome of looking for and reading `u.item`. */
  datatype ItemsFile = Missing | Unreadable | Items(rows: seq<ItemRow>)

  function UserIds(rs: seq<Rating>): (r: seq<int>)
    ensures |r| == |rs| && forall i | 0 <= i < |rs| :: r[i] == rs[i].user
  {
    seq(|rs|, i requires 0 <= i < |rs| => rs[i].user)
  }

  function MovieIds(rs: seq<Rating>): (r: seq<int>)
    ensures |r| == |rs| && forall i | 0 <= i < |rs| :: r[i] == rs[i].movie
  {
    seq(|rs|, i requires 0 <= i < |rs| => rs[i].movie)
  }

  // ---------------------------------------------------------------- the pivot table

  /**
   * `ratings_df.pivot_table(index='user_id', columns='movie_id', values='rating',
   * aggfunc='mean').fillna(0)`: the row labels, the column labels, and the
   * ratings the cells aggregate (see `Cell`).
   */
  datatype Table = Table(users: seq<int>, movies: seq<int>, rows: seq<Rating>)

  /** The ratings `user` gave `movie`, in table order. */
  function RatingsFor(rs: seq<Rating>, user: int, movie: int): (r: seq<real>)
    ensures r == [] <==> forall i | 0 <= i < |rs| :: !(rs[i].user == user && rs[i].movie == movie)
    ensures forall x :: multiset(r)[x] == multiset(rs)[Rating(user, movie, x)]
    ensures forall x :: x in r <==> Rating(user, movie, x) in rs
  {
    if rs == [] then []
    else
      var n := |rs| - 1;
      assert rs == rs[..n] + [rs[n]];
      var front := RatingsFor(rs[..n], user, movie);
      if rs[n].user == user && rs[n].movie == movie then front + [rs[n].rating] else front
  }

  /** The cell of the pivot table: the mean of the user's ratings of the movie, 0 if there are none. */
  function Cell(t: Table, user: int, movie: int): real
  {
    var vs := RatingsFor(t.rows, user, movie);
    if vs == [] then 0.0 else Mean(vs)
  }

  /** Row and column labels of the pivot table: the distinct user and movie ids, ascending. */
  function PivotTable(rs: seq<Rating>): (t: Table)
    ensures t.rows == rs
    ensures StrictlyIncreasing(t.users) && forall u :: u in t.users <==> u in UserIds(rs)
    ensures StrictlyIncreasing(t.movies) && forall m :: m in t.movies <==> m in MovieIds(rs)
  {
    Table(Ascending(UserIds(rs)), Ascending(MovieIds(rs)), rs)
  }

  lemma {:induction false} RatingsForWithin(rs: seq<Rating>, user: int, movie: int, lo: real, hi: real)
    requires forall i | 0 <= i < |rs| :: lo <= rs[i].rating <= hi
    ensures forall i | 0 <= i < |RatingsFor(rs, user, movie)| :: lo <= RatingsFor(rs, user, movie)[i] <= hi
  {
    if rs != [] {
      RatingsForWithin(rs[..|rs| - 1], user, movie, lo, hi);
    }
  }

  lemma {:induction false} RatingsForPositive(rs: seq<Rating>, user: int, movie: int)
    requires forall i | 0 <= i < |rs| :: rs[i].rating > 0.0
    ensures forall i | 0 <= i < |RatingsFor(rs, user, movie)| :: RatingsFor(rs, user, movie)[i] > 0.0
  {
    if rs != [] {
      RatingsForPositive(rs[..|rs| - 1], user, movie);
    }
  }

  /** With positive ratings, 0 marks exactly the pairs without a rating. */
  lemma CellRated(t: Table, user: int, movie: int)
    requires forall i | 0 <= i < |t.rows| :: t.rows[i].rating > 0.0
    ensures Cell(t, user, movie) >= 0.0
    ensures Cell(t, user, movie) > 0.0 <==> exists i | 0 <= i < |t.rows| :: t.rows[i].user == user && t.rows[i].movie == movie
  {
    var vs := RatingsFor(t.rows, user, movie);
    if vs != [] {
      RatingsForPositive(t.rows, user, movie);
      MeanPositive(vs);
    }
  }

  /** A rated cell lies within the bounds of the rating scale. */
  lemma CellWithin(t: Table, user: int, movie: int, lo: real, hi: real)
    requires forall i | 0 <= i < |t.rows| :: lo <= t.rows[i].rating <= hi
    requires exists i | 0 <= i < |t.rows| :: t.rows[i].user == user && t.rows[i].movie == movie
    ensures lo <= Cell(t, user, movie) <= hi
  {
    RatingsForWithin(t.rows, user, movie, lo, hi);
    MeanWithin(RatingsFor(t.rows, user, movie), lo, hi);
  }

  /** `{movie_id: rating for movie_id, rating in row.items() if rating > 0}` over the columns `ms`. */
  function PositiveCells(t: Table, user: int, ms: seq<int>): (r: Dict<int, real>)
    ensures forall m :: m in Keys(r) <==> m in ms && Cell(t, user, m) > 0.0
    ensures forall m | m in Keys(r) :: Get(r, m) == Some(Cell(t, user, m))
  {
    if ms == [] then []
    else
      var rest := PositiveCells(t, user, ms[1..]);
      assert forall m :: m in ms <==> m == ms[0] || m in ms[1..] by {
        assert ms == [ms[0]] + ms[1..];
      }
      if Cell(t, user, ms[0]) > 0.0 then
        var r := [(ms[0], Cell(t, user, ms[0]))] + rest;
        assert r[1..] == rest;
        r
      else rest
  }

  /** Over distinct columns no movie appears twice. */
  lemma {:induction false} PositiveCellsDistinct(t: Table, user: int, ms: seq<int>)
    requires StrictlyIncreasing(ms)
    ensures DistinctKeys(PositiveCells(t, user, ms))
  {
    if ms != [] {
      var rest := PositiveCells(t, user, ms[1..]);
      PositiveCellsDistinct(t, user, ms[1..]);
      if Cell(t, user, ms[0]) > 0.0 {
        assert ms[0] !in ms[1..] by {
          forall j | 0 <= j < |ms[1..]| ensures ms[1..][j] != ms[0] {
            assert ms[1..][j] == ms[j + 1];
          }
        }
        ConsDistinct((ms[0], Cell(t, user, ms[0])), rest);
      }
    }
  }

  // ---------------------------------------------------------------- genres

  /** Whether genre column `g` of a line holds 1. */
  predicate Flagged(flags: seq<int>, g: int)
  {
    0 <= g < |flags| && flags[g] == 1
  }

  /** The flagged genres among the first `c` genre columns, in column order. */
  function FlaggedUpTo(flags: seq<int>, c: nat): seq<string>
    requires c <= |GenreNames|
  {
    if c == 0 then []
    else FlaggedUpTo(flags, c - 1) + (if Flagged(flags, c - 1) then [GenreNames[c - 1]] else [])
  }

  function FlaggedGenres(flags: seq<int>): seq<string>
  {
    FlaggedUpTo(flags, |GenreNames|)
  }

  lemma {:induction false} FlaggedUpToMembers(flags: seq<int>, c: nat)
    requires c <= |GenreNames|
    ensures forall s :: s in FlaggedUpTo(flags, c) <==>
              exists g | 0 <= g < c :: GenreNames[g] == s && Flagged(flags, g)
  {
    if c > 0 {
      FlaggedUpToMembers(flags, c - 1);
    }
  }

  /** A movie's genre list holds exactly the genre names whose flag is 1. */
  lemma FlaggedGenresExact(flags: seq<int>)
    ensures forall s :: s in FlaggedGenres(flags) <==>
              exists g | 0 <= g < |GenreNames| :: GenreNames[g] == s && Flagged(flags, g)
    ensures |FlaggedGenres(flags)| <= |GenreNames|
  {
    FlaggedUpToMembers(flags, |GenreNames|);
    FlaggedUpToLength(flags, |GenreNames|);
  }

  lemma {:induction false} FlaggedUpToLength(flags: seq<int>, c: nat)
    requires c <= |GenreNames|
    ensures |FlaggedUpTo(flags, c)| <= c
  {
    if c > 0 {
      FlaggedUpToLength(flags, c - 1);
    }
  }

  /** The genre loop of `load_data` for one line. */
  method DecodeGenres(flags: seq<int>) returns (genres: seq<string>)
    ensures genres == FlaggedGenres(flags)
  {
    genres := [];
    var g := 0;
    while g < |GenreNames|
      invariant 0 <= g <= |GenreNames|
      invariant genres == FlaggedUpTo(flags, g)
    {
      if g < |flags| && flags[g] == 1 {
        genres := genres + [GenreNames[g]];
      }
      g := g + 1;
    }
  }

  predicate AllIds(rows: seq<ItemRow>)
  {
    forall i | 0 <= i < |rows| :: rows[i].movieId.Some?
  }

  /** `movie_genres` after the genre loop over `rows`, starting from `genres`. */
  function GenreMap(genres: map<int, seq<string>>, rows: seq<ItemRow>): map<int, seq<string>>
    requires AllIds(rows)
  {
    if rows == [] then genres
    else
      var n := |rows| - 1;
      GenreMap(genres, rows[..n])[rows[n].movieId.value := FlaggedGenres(rows[n].flags)]
  }

  /** The last line of `rows` with movie id `id`. */
  function LastRowFor(rows: seq<ItemRow>, id: int): Option<ItemRow>
  {
    if rows == [] then None
    else if rows[|rows| - 1].movieId == Some(id) then Some(rows[|rows| - 1])
    else LastRowFor(rows[..|rows| - 1], id)
  }

  /** The genres stored for a movie come from its last line; movies the file does not list keep theirs. */
  lemma {:induction false} GenreMapLookup(genres: map<int, seq<string>>, rows: seq<ItemRow>, id: int)
    requires AllIds(rows)
    ensures match LastRowFor(rows, id)
            case Some(row) => id in GenreMap(genres, rows) && GenreMap(genres, rows)[id] == FlaggedGenres(row.flags)
            case None => (id in GenreMap(genres, rows) <==> id in genres)
                         && (id in genres ==> GenreMap(genres, rows)[id] == genres[id])
  {
    if rows != [] {
      GenreMapLookup(genres, rows[..|rows| - 1], id);
    }
  }

  /** `df_items[['movie_id', 'title']]` */
  function TitlesOf(rows: seq<ItemRow>): (r: Dict<int, string>)
    requires AllIds(rows)
    ensures |r| == |rows|
    ensures forall i | 0 <= i < |rows| :: r[i] == (rows[i].movieId.value, rows[i].title)
  {
    seq(|rows|, i requires 0 <= i < |rows| && AllIds(rows) => (rows[i].movieId.value, rows[i].title))
  }

  /** `movie_titles` and `movie_genres` after `load_data` has handled the item file. */
  function LoadItems(file: ItemsFile, titles: Dict<int, string>, genres: map<int, seq<string>>)
    : (Dict<int, string>, map<int, seq<string>>)
  {
    match file
    case Missing => (titles, genres)
    case Unreadable => ([], map[])
    case Items(rows) => if AllIds(rows) then (TitlesOf(rows), GenreMap(genres, rows)) else ([], map[])
  }

  // ---------------------------------------------------------------- popularity

  /** Number of ratings of `movie`: `ratings_df.groupby('movie_id').size()`. */
  function Count(rs: seq<Rating>, movie: int): nat
  {
    if rs == [] then 0
    else Count(rs[..|rs| - 1], movie) + (if rs[|rs| - 1].movie == movie then 1 else 0)
  }

  /**
   * `counts.nlargest(n).index.tolist()`: the group labels (ascending movie ids)
   * stably sorted by count, largest first, cut to `n`; nothing for `n <= 0`.
   */
  function TopPopular(rs: seq<Rating>, n: int): (r: seq<int>)
    ensures n <= 0 ==> r == []
  {
    if n <= 0 then [] else Take(SortDesc(Ascending(MovieIds(rs)), (m: int) => Count(rs, m) as real), n)
  }

  /**
   * The popular list holds `min(n, number of movies)` distinct rated movies,
   * ordered by number of ratings, largest first.
   */
  lemma TopPopularRanked(rs: seq<Rating>, n: int)
    ensures var r := TopPopular(rs, n);
            && (n > 0 ==> |r| == if n < |Ascending(MovieIds(rs))| then n else |Ascending(MovieIds(rs))|)
            && Distinct(r)
            && (forall m | m in r :: m in MovieIds(rs))
            && (forall i, j | 0 <= i < j < |r| :: Count(rs, r[i]) >= Count(rs, r[j]))
  {
    if n > 0 {
      var ids := Ascending(MovieIds(rs));
      var key := (m: int) => Count(rs, m) as real;
      var sorted := SortDesc(ids, key);
      assert |sorted| == |multiset(sorted)| == |ids|;
      forall m | m in sorted ensures m in ids {
        assert m in multiset(sorted);
      }
      SortDescDistinct(ids, key);
      var r := Take(sorted, n);
      assert forall i | 0 <= i < |r| :: r[i] == sorted[i];
    }
  }

  /** Every movie the popular list leaves out has no more ratings than any movie on it. */
  lemma TopPopularTop(rs: seq<Rating>, n: int, m: int)
    requires m in MovieIds(rs) && m !in TopPopular(rs, n)
    ensures forall x | x in TopPopular(rs, n) :: Count(rs, x) >= Count(rs, m)
  {
    if n > 0 {
      var ids := Ascending(MovieIds(rs));
      var key := (m: int) => Count(rs, m) as real;
      assert m in multiset(ids);
      TakeSortedTop(ids, key, n, m);
    }
  }

  // ---------------------------------------------------------------- the repository

  /** Positions drawn by `random.sample`: an arrangement of `0 .. size - 1`. */
  ghost predicate IsArrangement(order: seq<nat>, size: nat)
  {
    |order| == size && Distinct(order) && forall i | 0 <= i < |order| :: order[i] < size
  }

  /** The positive cells of a user's row, in column order; nothing without a table or row. */
  function UserRatings(table: Option<Table>, user: int): Dict<int, real>
  {
    if table.None? || user !in table.value.users then []
    else PositiveCells(table.value, user, table.value.movies)
  }

  class DataProcessor {
    var ratings: Option<seq<Rating>>
    var table: Option<Table>
    var titles: Dict<int, string>
    var genres: map<int, seq<string>>

    /** The table, when there is one, is the pivot of the ratings it holds. */
    ghost predicate Valid()
      reads this
    {
      table.Some? ==> table.value == PivotTable(table.value.rows)
    }

    constructor ()
      ensures ratings == None && table == None && titles == [] && genres == map[]
      ensures Valid()
    {
      ratings := None;
      table := None;
      titles := [];
      genres := map[];
    }

    /**
     * `load_data`. `ratingsFile` is `u.data` as parsed, None when reading it
     * fails: the ratings become an empty table and nothing else happens.
     */
    method LoadData(ratingsFile: Option<seq<Rating>>, itemsFile: ItemsFile)
      requires Valid()
      modifies this
      ensures Valid()
      ensures ratingsFile.None? ==>
                ratings == Some([]) && table == old(table) && titles == old(titles) && genres == old(genres)
      ensures ratingsFile.Some? ==>
                && ratings == ratingsFile && table == Some(PivotTable(ratingsFile.value))
                && (titles, genres) == LoadItems(itemsFile, old(titles), old(genres))
    {
      if ratingsFile.None? {
        ratings := Some([]);
        return;
      }
      ratings := ratingsFile;
      match itemsFile {
        case Missing =>
        case Unreadable =>
          titles := [];
          genres := map[];
        case Items(rows) =>
          ReadItems(rows);
      }
      CreateUserItemTable();
    }

    /**
     * The successful read of `u.item`. A line whose id is not a number raises,
     * and the handler empties both titles and genres. The source takes the
     * titles before the loop; taking them after it ends in the same state.
     */
    method ReadItems(rows: seq<ItemRow>)
      modifies this
      ensures (titles, genres) == LoadItems(Items(rows), old(titles), old(genres))
      ensures ratings == old(ratings) && table == old(table)
    {
      var i := 0;
      while i < |rows|
        invariant 0 <= i <= |rows|
        invariant AllIds(rows[..i])
        invariant genres == GenreMap(old(genres), rows[..i])
        invariant ratings == old(ratings) && table == old(table)
      {
        if rows[i].movieId.None? {
          titles := [];
          genres := map[];
          return;
        }
        var g := DecodeGenres(rows[i].flags);
        assert rows[..i + 1][..i] == rows[..i];
        genres := genres[rows[i].movieId.value := g];
        i := i + 1;
      }
      assert rows[..i] == rows;
      titles := TitlesOf(rows);
    }

    /** `_create_user_item_table`: an empty frame when no ratings were ever read. */
    method CreateUserItemTable()
      modifies this
      ensures table == Some(if ratings.None? then Table([], [], []) else PivotTable(ratings.value))
      ensures Valid()
      ensures ratings == old(ratings) && titles == old(titles) && genres == old(genres)
    {
      if ratings.None? {
        table := Some(Table([], [], []));
        return;
      }
      table := Some(PivotTable(ratings.value));
    }

    /** `get_user_ratings`: the positive cells of the user's row, in column order. */
    function GetUserRatings(user: int): (r: Dict<int, real>)
      reads this
      ensures (table.None? || user !in table.value.users) ==> r == []
      ensures forall m :: m in Keys(r) <==>
                table.Some? && user in table.value.users && m in table.value.movies && Cell(table.value, user, m) > 0.0
      ensures table.Some? ==> forall m | m in Keys(r) :: Get(r, m) == Some(Cell(table.value, user, m))
    {
      UserRatings(table, user)
    }

    /** Returned as a Python dict: no movie twice. */
    lemma UserRatingsDistinct(user: int)
      requires Valid()
      ensures DistinctKeys(GetUserRatings(user))
    {
      if table.Some? && user in table.value.users {
        PositiveCellsDistinct(table.value, user, table.value.movies);
      }
    }

    /** `get_all_users`: the row labels of the table. */
    function GetAllUsers(): (r: seq<int>)
      reads this
      ensures table.None? ==> r == []
      ensures Valid() ==> StrictlyIncreasing(r) && forall u :: u in r <==> table.Some? && u in UserIds(table.value.rows)
    {
      if table.None? then [] else table.value.users
    }

    /** `get_movie_title`: the first title stored for the id, else a name made from the id. */
    function GetMovieTitle(id: int): (r: string)
      reads this
      ensures id in Keys(titles) ==> Get(titles, id) == Some(r)
      ensures id !in Keys(titles) ==>
                |r| > |FallbackPrefix| && r[..|FallbackPrefix|] == FallbackPrefix
                && Text.ParseInt(r[|FallbackPrefix|..]) == Some(id)
    {
      match Get(titles, id)
      case Some(title) => title
      case None =>
        var r := FallbackPrefix + Text.IntToString(id);
        Text.IntToStringRoundTrip(id);
        assert r[|FallbackPrefix|..] == Text.IntToString(id);
        r
    }

    /** `get_movie_genres` */
    function GetMovieGenres(id: int): (r: seq<string>)
      reads this
      ensures id !in genres ==> r == []
      ensures id in genres ==> r == genres[id]
    {
      if id in genres then genres[id] else []
    }

    /** `get_top_popular_movies` */
    function GetTopPopularMovies(n: int): (r: seq<int>)
      reads this
      ensures (ratings.None? || ratings.value == [] || n <= 0) ==> r == []
      ensures n >= 0 ==> |r| <= n
      ensures Distinct(r)
      ensures forall m | m in r :: ratings.Some? && m in MovieIds(ratings.value)
    {
      if ratings.None? || ratings.value == [] then []
      else
        TopPopularRanked(ratings.value, n);
        TopPopular(ratings.value, n)
    }

    /** The population `get_random_movies` samples from. */
    function Catalog(): seq<int>
      reads this
    {
      var ts := titles;
      if ts != [] then seq(|ts|, i requires 0 <= i < |ts| => ts[i].0)
      else if ratings.Some? then Unique(MovieIds(ratings.value))
      else []
    }

    /**
     * `get_random_movies`: the first `min(n, len(catalog))` movies of a random
     * arrangement. `random.sample` rejects a negative count with ValueError.
     */
    function GetRandomMovies(n: int, order: seq<nat>): (r: Result<seq<int>, string>)
      reads this
      requires IsArrangement(order, |Catalog()|)
      ensures r.Err? <==> n < 0 && (titles != [] || ratings.Some?)
      ensures r.Ok? && n >= 0 ==> |r.value| == if n < |Catalog()| then n else |Catalog()|
      ensures r.Ok? ==> forall m | m in r.value :: m in Catalog()
    {
      if titles == [] && ratings.None? then Ok([])
      else
        var all := Catalog();
        var k := if n < |all| then n else |all|;
        if k < 0 then Err("Sample larger than population or is negative")
        else
          var sample := seq(k, i requires 0 <= i < k => all[order[i]]);
          assert forall m | m in sample :: m in all by {
            forall m | m in sample ensures m in all {
              var i :| 0 <= i < k && sample[i] == m;
              assert all[order[i]] == m;
            }
          }
          Ok(sample)
    }
  }
}
