/**
 * The parts of the Telegram bot (lab03/bot.py) that compute rather than talk:
 * reading the local user's stored ratings back as `{movie_id: rating}`, the
 * search for the most similar real user, and the two ways a user types
 * ratings in (the batch format `id:rating, id:rating, ...` and the manual
 * `/rate` reply `id rating`).
 */
module Bot {
  import opened Wrappers
  import opened Dicts
  import opened Text
  import opened Seqs
  import opened LocalStore
  import Stats
  import Similarity
  import DataHandler

  // ---------------------------------------------------------------------
  // _local_user_ratings_dict
  // ---------------------------------------------------------------------

  /** `float(v)` on a stored value; `None` where Python raises. */
  function ToFloat(v: Value): Option<real>
  {
    match v
    case Number(x) => Some(x)
    case Str(s) => ParseFloat(s)
    case Bool(b) => Some(if b then 1.0 else 0.0)
    case OtherJson => None
  }

  /** `(int(k), float(v))` for one stored item, if both conversions succeed. */
  function Convert(item: (string, Value)): Option<(int, real)>
  {
    var m := ParseInt(item.0);
    var x := ToFloat(item.1);
    if m.Some? && x.Some? then Some((m.value, x.value)) else None
  }

  /** The stored items as the bot reads them: `local.get("ratings", {})`. */
  function StoredItems(user: UserRecord): Dict<string, Value>
  {
    if user.ratings.Some? then user.ratings.value else []
  }

  /** What conversion an item undergoes: a movie id and rating, or nothing. */
  type Conversion = ((string, Value)) -> Option<(int, real)>

  /**
   * `ratings[int(k)] = float(v)` for each stored item in order, skipping the
   * items the conversion rejects (written for any conversion, used with `Convert`).
   */
  function ConvertedBy(items: Dict<string, Value>, conv: Conversion): (r: Dict<int, real>)
    ensures |r| <= |items|
    decreases |items|
  {
    if items == [] then []
    else
      var n := |items| - 1;
      var front := ConvertedBy(items[..n], conv);
      match conv(items[n])
      case Some(e) => PutKeys(front, e.0, e.1); Put(front, e.0, e.1)
      case None => front
  }

  /** The dict `_local_user_ratings_dict` builds from the stored items. */
  function Converted(items: Dict<string, Value>): Dict<int, real>
  {
    ConvertedBy(items, Convert)
  }

  /** A movie is in the result exactly when some stored item converts to it. */
  lemma {:induction false} ConvertedKeys(items: Dict<string, Value>, conv: Conversion)
    ensures forall m :: m in Keys(ConvertedBy(items, conv)) <==>
              exists i | 0 <= i < |items| :: conv(items[i]).Some? && conv(items[i]).value.0 == m
  {
    if items != [] {
      var n := |items| - 1;
      ConvertedKeys(items[..n], conv);
      var e := conv(items[n]);
      if e.Some? {
        PutKeys(ConvertedBy(items[..n], conv), e.value.0, e.value.1);
      }
      forall m ensures m in Keys(ConvertedBy(items, conv)) <==>
                exists i | 0 <= i < |items| :: conv(items[i]).Some? && conv(items[i]).value.0 == m
      {
        if m in Keys(ConvertedBy(items, conv)) {
          if m in Keys(ConvertedBy(items[..n], conv)) {
            var i :| 0 <= i < n && conv(items[..n][i]).Some? && conv(items[..n][i]).value.0 == m;
            assert items[..n][i] == items[i];
          } else {
            assert conv(items[n]).Some? && conv(items[n]).value.0 == m;
          }
        } else {
          forall i | 0 <= i < |items| ensures !(conv(items[i]).Some? && conv(items[i]).value.0 == m) {
            if i < n {
              assert items[..n][i] == items[i];
            }
          }
        }
      }
    }
  }

  /** Later items win: the value read for a movie is the last item that converts to it. */
  lemma {:induction false} ConvertedLast(items: Dict<string, Value>, conv: Conversion, i: int, m: int, x: real)
    requires 0 <= i < |items| && conv(items[i]) == Some((m, x))
    requires forall j | i < j < |items| :: conv(items[j]).None? || conv(items[j]).value.0 != m
    ensures Get(ConvertedBy(items, conv), m) == Some(x)
  {
    var n := |items| - 1;
    var front := ConvertedBy(items[..n], conv);
    if i == n {
      GetPut(front, m, x, m);
    } else {
      forall j | i < j < n ensures conv(items[..n][j]).None? || conv(items[..n][j]).value.0 != m {
        assert items[..n][j] == items[j];
      }
      assert items[..n][i] == items[i];
      ConvertedLast(items[..n], conv, i, m, x);
      match conv(items[n]) {
        case Some(e) => GetPut(front, e.0, e.1, m);
        case None =>
      }
    }
  }

  /** The item `add_rating` writes converts back to its movie and rating. */
  lemma ConvertSaved(m: int, x: real)
    ensures Convert((RatingKey(m), Number(x))) == Some((m, x))
  {
    RatingKeyRoundTrip(m);
  }

  /** An item converts to a movie only if its key reads as that movie. */
  lemma ConvertKey(item: (string, Value), m: int)
    requires Convert(item).Some? && Convert(item).value.0 == m
    ensures ParseInt(item.0) == Some(m)
  {
  }

  /**
   * A rating saved by `add_rating` into ratings whose keys are the ones
   * `add_rating` writes is the rating the bot reads back for that movie.
   */
  lemma SavedReadsBack(d: Dict<string, Value>, m: int, x: real)
    requires DistinctKeys(d)
    requires forall j | 0 <= j < |d| :: ParseInt(d[j].0) == Some(m) ==> d[j].0 == RatingKey(m)
    ensures Get(Converted(Put(d, RatingKey(m), Number(x))), m) == Some(x)
  {
    var k := RatingKey(m);
    var r := Put(d, k, Number(x));
    GetPut(d, k, Number(x), k);
    PutKeys(d, k, Number(x));
    PutDistinct(d, k, Number(x));
    var i := KeyIndex(r, k);
    GetAt(r, i);
    ConvertSaved(m, x);
    forall j | i < j < |r| ensures Convert(r[j]).None? || Convert(r[j]).value.0 != m {
      KeysAt(r, j);
      if Convert(r[j]).Some? && Convert(r[j]).value.0 == m {
        ConvertKey(r[j], m);
        var p := KeyIndex(d, r[j].0);
        assert false;
      }
    }
    ConvertedLast(r, Convert, i, m, x);
  }

  /** `_local_user_ratings_dict` */
  method LocalUserRatings(storage: Storage) returns (ratings: Dict<int, real>)
    ensures ratings == Converted(StoredItems(storage.GetLocalUser()))
  {
    var items := StoredItems(storage.GetLocalUser());
    ratings := ConvertAll(items, Convert);
  }

  /** The loop of `_local_user_ratings_dict`, for any conversion. */
  method ConvertAll(items: Dict<string, Value>, conv: Conversion) returns (ratings: Dict<int, real>)
    ensures ratings == ConvertedBy(items, conv)
  {
    ratings := [];
    for i := 0 to |items|
      invariant ratings == ConvertedBy(items[..i], conv)
    {
      assert items[..i + 1][..i] == items[..i];
      var converted := conv(items[i]);
      if converted.Some? {
        ratings := Put(ratings, converted.value.0, converted.value.1);
      }
    }
    assert items[..|items|] == items;
  }

  // ---------------------------------------------------------------------
  // _find_most_similar_real_user
  // ---------------------------------------------------------------------

  /** `uid -> user_pearson_similarity(local_ratings, get_user_ratings(uid), min_common)` */
  function Matches(local: Dict<int, real>, table: Option<DataHandler.Table>, minCommon: int, sqrt: real -> real): int -> Option<real>
    requires minCommon >= 1
  {
    u => Similarity.UserSimilarity(local, DataHandler.UserRatings(table, u), minCommon, sqrt)
  }

  /**
   * `_find_most_similar_real_user` with its `_sync_search`: the first real
   * user, in `get_all_users()` order, whose similarity is defined, above
   * -1.0 and no smaller than anyone's; `(None, 0.0)` when there is none.
   */
  method FindMostSimilarRealUser(local: Dict<int, real>, dp: DataHandler.DataProcessor, minCommon: int, sqrt: real -> real)
    returns (best: Option<int>, score: real)
    requires minCommon >= 1
    ensures local == [] || dp.table.None? ==> best == None && score == 0.0
    ensures local != [] && dp.table.Some? ==>
              IsBestMatch(dp.GetAllUsers(), Matches(local, dp.table, minCommon, sqrt), best, score)
    ensures best.Some? && Stats.IsSqrt(sqrt) ==> score <= 1.0
  {
    if local == [] || dp.table.None? {
      return None, 0.0;
    }
    var match_ := Matches(local, dp.table, minCommon, sqrt);
    best, score := BestMatch(dp.GetAllUsers(), match_);
    if best.Some? && Stats.IsSqrt(sqrt) {
      Similarity.UserSimilarityRange(local, DataHandler.UserRatings(dp.table, best.value), minCommon, sqrt);
    }
  }

  /**
   * `best` is the first user whose score is defined, above -1.0 and no smaller
   * than any other defined score, with that score; with no such user, `best`
   * is `None`, every defined score is at most -1.0, and the score is 0.0.
   */
  ghost predicate IsBestMatch(users: seq<int>, sim: int -> Option<real>, best: Option<int>, score: real)
  {
    && (best.None? ==> score == 0.0 && forall j | 0 <= j < |users| :: sim(users[j]).None? || sim(users[j]).value <= -1.0)
    && (best.Some? ==>
          && -1.0 < score
          && (forall j | 0 <= j < |users| :: sim(users[j]).None? || sim(users[j]).value <= score)
          && exists k | 0 <= k < |users| ::
               && users[k] == best.value && sim(users[k]) == Some(score)
               && forall j | 0 <= j < k :: sim(users[j]).None? || sim(users[j]).value < score)
  }

  /** The loop of `_sync_search`: keeps the first strictly better similarity, starting from -1.0. */
  method BestMatch(users: seq<int>, sim: int -> Option<real>) returns (best: Option<int>, score: real)
    ensures IsBestMatch(users, sim, best, score)
  {
    var bestUser: Option<int> := None;
    var bestSim := -1.0;
    ghost var bestIndex := 0;
    for i := 0 to |users|
      invariant bestUser.None? ==> bestSim == -1.0
      invariant bestUser.Some? ==>
                  && 0 <= bestIndex < i && users[bestIndex] == bestUser.value
                  && sim(users[bestIndex]) == Some(bestSim) && -1.0 < bestSim
                  && forall j | 0 <= j < bestIndex :: sim(users[j]).None? || sim(users[j]).value < bestSim
      invariant forall j | 0 <= j < i :: sim(users[j]).None? || sim(users[j]).value <= bestSim
    {
      var s := sim(users[i]);
      if s.Some? && s.value > bestSim {
        bestSim := s.value;
        bestUser := Some(users[i]);
        bestIndex := i;
      }
    }
    if bestUser.None? {
      return None, 0.0;
    }
    best, score := bestUser, bestSim;
  }

  // ---------------------------------------------------------------------
  // _parse_and_save_ratings
  // ---------------------------------------------------------------------

  /** `[p.strip() for p in parts if p.strip()]`, for any `strip` (the bot's is `Strip`). */
  function NonBlankBy(parts: seq<string>, strip: string -> string): (r: seq<string>)
    ensures |r| <= |parts|
    ensures forall p | p in r :: p != []
    decreases |parts|
  {
    if parts == [] then []
    else
      var n := |parts| - 1;
      var front := NonBlankBy(parts[..n], strip);
      if strip(parts[n]) != [] then front + [strip(parts[n])] else front
  }

  /** A piece is kept exactly when it is the non-empty strip of some part. */
  lemma {:induction false} NonBlankMembers(parts: seq<string>, strip: string -> string)
    ensures forall p :: p in NonBlankBy(parts, strip) <==> p != [] && exists q | q in parts :: p == strip(q)
    decreases |parts|
  {
    if parts != [] {
      var n := |parts| - 1;
      NonBlankMembers(parts[..n], strip);
      assert forall q :: q in parts <==> q in parts[..n] || q == parts[n] by {
        assert parts == parts[..n] + [parts[n]];
      }
    }
  }

  /** The comprehension keeps the order of the parts: it maps a concatenation piecewise. */
  lemma {:induction false} NonBlankAppend(a: seq<string>, b: seq<string>, strip: string -> string)
    ensures NonBlankBy(a + b, strip) == NonBlankBy(a, strip) + NonBlankBy(b, strip)
    decreases |b|
  {
    if b == [] {
      assert a + b == a;
    } else {
      var n := |b| - 1;
      assert (a + b)[..|a + b| - 1] == a + b[..n];
      NonBlankAppend(a, b[..n], strip);
    }
  }

  /** The non-blank comma-separated pieces of a message, stripped. */
  function Pieces(text: string): seq<string>
  {
    NonBlankBy(SplitOn(text, ','), Strip)
  }

  /** A rating the bot accepts. */
  predicate InRange(x: real) {
    1.0 <= x <= 5.0
  }

  function Both(m: Option<int>, x: Option<real>): Option<(int, real)>
  {
    if m.Some? && x.Some? then Some((m.value, x.value)) else None
  }

  /**
   * One piece: `id rating` split on whitespace when it has no colon (extra
   * words ignored), otherwise `id:rating` split at the first colon.
   */
  function ParseEntry(p: string): Option<(int, real)>
  {
    if ':' !in p then
      var sub := Words(p);
      if |sub| >= 2 then Both(ParseInt(sub[0]), ParseFloat(sub[1])) else None
    else
      var c := IndexOf(p, ':');
      Both(ParseInt(Strip(p[..c])), ParseFloat(Strip(p[c + 1..])))
  }

  /** `id:rating` as the bot asks for it reads back as that id and rating. */
  lemma ParseEntryRoundTrip(m: int, s: string)
    ensures ParseEntry(RatingKey(m) + ":" + s) ==
            if ParseFloat(s).Some? then Some((m, ParseFloat(s).value)) else None
  {
    var key := RatingKey(m);
    KeyParses(m);
    ColonSplit(key, s);
    ParseFloatStrip(s);
  }

  /** A stored key has no colon and reads back, stripped, as its movie. */
  lemma KeyParses(m: int)
    ensures ':' !in RatingKey(m)
    ensures ParseInt(Strip(RatingKey(m))) == Some(m)
  {
    var key := Text.IntToString(m);
    IntToStringChars(m);
    forall i | 0 <= i < |key| ensures key[i] != ':' {
    }
    StripUnchanged(key);
    RatingKeyRoundTrip(m);
  }

  /** Splitting `left:right` at its first colon, when `left` has none. */
  lemma ColonSplit(left: string, right: string)
    requires ':' !in left
    ensures var p := left + ":" + right;
            ':' in p && IndexOf(p, ':') == |left| && p[..|left|] == left && p[|left| + 1..] == right
  {
    var p := left + ":" + right;
    assert p[|left|] == ':';
    assert left == p[..|left|];
    var c := IndexOf(p, ':');
    assert p[c + 1..] == right;
  }

  /** The accepted entries of the pieces, in order: parsed and within 1..5 (for any parser). */
  function AcceptedBy(pieces: seq<string>, parse: string -> Option<(int, real)>): (es: seq<(int, real)>)
    ensures |es| <= |pieces|
    ensures forall e | e in es :: InRange(e.1)
    decreases |pieces|
  {
    if pieces == [] then []
    else
      var n := |pieces| - 1;
      var e := parse(pieces[n]);
      var front := AcceptedBy(pieces[..n], parse);
      if e.Some? && InRange(e.value.1) then front + [e.value] else front
  }

  /** An entry is accepted exactly when some piece parses to it and its rating is within 1..5. */
  lemma {:induction false} AcceptedMembers(pieces: seq<string>, parse: string -> Option<(int, real)>)
    ensures forall e :: e in AcceptedBy(pieces, parse) <==> InRange(e.1) && exists p | p in pieces :: parse(p) == Some(e)
    decreases |pieces|
  {
    if pieces != [] {
      var n := |pieces| - 1;
      AcceptedMembers(pieces[..n], parse);
      assert forall q :: q in pieces <==> q in pieces[..n] || q == pieces[n] by {
        assert pieces == pieces[..n] + [pieces[n]];
      }
    }
  }

  /** Entries are accepted piece by piece, in the order of the pieces. */
  lemma {:induction false} AcceptedAppend(a: seq<string>, b: seq<string>, parse: string -> Option<(int, real)>)
    ensures AcceptedBy(a + b, parse) == AcceptedBy(a, parse) + AcceptedBy(b, parse)
    decreases |b|
  {
    if b == [] {
      assert a + b == a;
    } else {
      var n := |b| - 1;
      assert (a + b)[..|a + b| - 1] == a + b[..n];
      AcceptedAppend(a, b[..n], parse);
    }
  }

  /** Reading one more piece appends its entry when it is accepted. */
  lemma AcceptedStep(pieces: seq<string>, parse: string -> Option<(int, real)>, i: int)
    requires 0 <= i < |pieces|
    ensures parse(pieces[i]).Some? && InRange(parse(pieces[i]).value.1) ==>
              AcceptedBy(pieces[..i + 1], parse) == AcceptedBy(pieces[..i], parse) + [parse(pieces[i]).value]
    ensures !(parse(pieces[i]).Some? && InRange(parse(pieces[i]).value.1)) ==>
              AcceptedBy(pieces[..i + 1], parse) == AcceptedBy(pieces[..i], parse)
  {
    assert pieces[..i + 1][..i] == pieces[..i];
  }

  lemma AcceptedWhole(pieces: seq<string>, parse: string -> Option<(int, real)>)
    ensures AcceptedBy(pieces[..|pieces|], parse) == AcceptedBy(pieces, parse)
  {
    assert pieces[..|pieces|] == pieces;
  }

  /** Once a prefix of the pieces has an accepted entry, so do all of them. */
  lemma AcceptedSome(pieces: seq<string>, parse: string -> Option<(int, real)>, j: nat)
    requires j <= |pieces| && AcceptedBy(pieces[..j], parse) != []
    ensures AcceptedBy(pieces, parse) != []
  {
    AcceptedPrefix(pieces, parse, j);
  }

  /** The entries `_parse_and_save_ratings` saves. */
  function Accepted(pieces: seq<string>): seq<(int, real)>
  {
    AcceptedBy(pieces, ParseEntry)
  }

  /** Reading fewer pieces accepts a prefix of the entries. */
  lemma AcceptedPrefix(pieces: seq<string>, parse: string -> Option<(int, real)>, j: nat)
    requires j <= |pieces|
    ensures AcceptedBy(pieces[..j], parse) <= AcceptedBy(pieces, parse)
  {
    SplitAt(pieces, j);
    AcceptedAppend(pieces[..j], pieces[j..], parse);
  }


  /** The ratings after `storage.add_rating` for each accepted entry, in order. */
  function SaveAll(d: Dict<string, Value>, es: seq<(int, real)>): (r: Dict<string, Value>)
    decreases |es|
  {
    if es == [] then d
    else
      var n := |es| - 1;
      Put(SaveAll(d, es[..n]), RatingKey(es[n].0), Number(es[n].1))
  }

  /** Saving one more entry is one more `add_rating`. */
  lemma SaveStep(d: Dict<string, Value>, es: seq<(int, real)>, e: (int, real))
    ensures SaveAll(d, es + [e]) == Put(SaveAll(d, es), RatingKey(e.0), Number(e.1))
  {
    assert (es + [e])[..|es|] == es;
  }

  /** A movie no entry names keeps its stored value. */
  lemma {:induction false} SaveAllOther(d: Dict<string, Value>, es: seq<(int, real)>, k: string)
    requires forall i | 0 <= i < |es| :: RatingKey(es[i].0) != k
    ensures Get(SaveAll(d, es), k) == Get(d, k)
    decreases |es|
  {
    if es != [] {
      var n := |es| - 1;
      GetPut(SaveAll(d, es[..n]), RatingKey(es[n].0), Number(es[n].1), k);
      SaveAllOther(d, es[..n], k);
    }
  }

  /** A movie named by several entries keeps the last one's rating. */
  lemma {:induction false} SaveAllLast(d: Dict<string, Value>, es: seq<(int, real)>, i: int)
    requires 0 <= i < |es|
    requires forall j | i < j < |es| :: es[j].0 != es[i].0
    ensures Get(SaveAll(d, es), RatingKey(es[i].0)) == Some(Number(es[i].1))
    decreases |es|
  {
    var n := |es| - 1;
    var k := RatingKey(es[i].0);
    var front := SaveAll(d, es[..n]);
    assert SaveAll(d, es) == Put(front, RatingKey(es[n].0), Number(es[n].1));
    GetPut(front, RatingKey(es[n].0), Number(es[n].1), k);
    if i < n {
      RatingKeyInjective(es[n].0, es[i].0);
      assert es[..n][i] == es[i];
      forall j | i < j < n ensures es[..n][j].0 != es[..n][i].0 {
        assert es[..n][j] == es[j];
      }
      SaveAllLast(d, es[..n], i);
    }
  }

  /**
   * `_parse_and_save_ratings`: saves every accepted entry and counts them.
   * `None` stands for the KeyError `add_rating` raises, outside any `try`,
   * when the stored entry has no `"ratings"`; it can only happen on the
   * first save, so then nothing was written.
   */
  method ParseAndSaveRatings(text: string, storage: Storage) returns (added: Option<nat>)
    modifies storage
    ensures added.Some? <==> Accepted(Pieces(text)) == [] || old(storage.GetLocalUser()).ratings.Some?
    ensures added.Some? ==> added.value == |Accepted(Pieces(text))| <= |Pieces(text)|
    ensures added.None? || Accepted(Pieces(text)) == [] ==>
              storage.localUser == old(storage.localUser) && storage.file == old(storage.file)
    ensures added.Some? && Accepted(Pieces(text)) != [] ==>
              && storage.GetLocalUser().ratings == Some(SaveAll(old(storage.GetLocalUser()).ratings.value, Accepted(Pieces(text))))
              && storage.Valid()
  {
    var pieces := Pieces(text);
    if pieces == [] {
      return Some(0);
    }
    added := SaveEntries(pieces, ParseEntry, storage);
  }

  /** The loop of `_parse_and_save_ratings`, for any parser of one piece. */
  method SaveEntries(pieces: seq<string>, parse: string -> Option<(int, real)>, storage: Storage) returns (added: Option<nat>)
    modifies storage
    ensures added.Some? <==> AcceptedBy(pieces, parse) == [] || old(storage.GetLocalUser()).ratings.Some?
    ensures added.Some? ==> added.value == |AcceptedBy(pieces, parse)|
    ensures added.None? || AcceptedBy(pieces, parse) == [] ==>
              storage.localUser == old(storage.localUser) && storage.file == old(storage.file)
    ensures added.Some? && AcceptedBy(pieces, parse) != [] ==>
              && storage.GetLocalUser().ratings == Some(SaveAll(old(storage.GetLocalUser()).ratings.value, AcceptedBy(pieces, parse)))
              && storage.Valid()
  {
    var count := 0;
    ghost var user, file := storage.localUser, storage.file;
    ghost var d := storage.GetLocalUser().ratings;
    ghost var saved: seq<(int, real)> := [];
    for i := 0 to |pieces|
      invariant saved == AcceptedBy(pieces[..i], parse) && count == |saved|
      invariant saved == [] ==> storage.localUser == user && storage.file == file
      invariant saved != [] ==>
                  && d.Some? && storage.localUser == Some(UserRecord(Some(SaveAll(d.value, saved))))
                  && storage.file == Stored(storage.localUser)
    {
      AcceptedStep(pieces, parse, i);
      var entry := parse(pieces[i]);
      if entry.Some? && InRange(entry.value.1) {
        var ok := SaveEntry(entry.value, storage, d, saved);
        if !ok {
          AcceptedSome(pieces, parse, i + 1);
          return None;
        }
        saved := saved + [entry.value];
        count := count + 1;
      }
    }
    AcceptedWhole(pieces, parse);
    return Some(count);
  }

  /**
   * One `storage.add_rating` of the loop, after the entries `saved` were saved
   * into the ratings `d` the loop started from.
   */
  method SaveEntry(e: (int, real), storage: Storage, ghost d: Option<Dict<string, Value>>, ghost saved: seq<(int, real)>)
    returns (ok: bool)
    requires saved == [] ==> (if storage.localUser.Some? then storage.localUser.value.ratings else Some([])) == d
    requires saved != [] ==> d.Some? && storage.localUser == Some(UserRecord(Some(SaveAll(d.value, saved))))
    modifies storage
    ensures ok <==> d.Some?
    ensures ok ==> storage.localUser == Some(UserRecord(Some(SaveAll(d.value, saved + [e]))))
    ensures ok ==> storage.file == Stored(storage.localUser)
    ensures !ok ==> storage.localUser == old(storage.localUser) && storage.file == old(storage.file)
  {
    ok := storage.AddRating(e.0, e.1);
    if ok {
      SaveStep(d.value, saved, e);
    }
  }

  // ---------------------------------------------------------------------
  // The awaiting_manual_rate reply
  // ---------------------------------------------------------------------

  /** What the manual `/rate` reply leads to. */
  datatype ManualOutcome = TooFewParts | BadFormat | OutOfRange | Saved(movie: int, rating: real)

  /** The reply read as `text.replace(":", " ").split()`, before anything is saved. */
  function ManualEntry(text: string): ManualOutcome
  {
    var parts := Words(ReplaceChar(text, ':', ' '));
    if |parts| < 2 then TooFewParts
    else
      var e := Both(ParseInt(parts[0]), ParseFloat(parts[1]));
      if e.None? then BadFormat
      else if InRange(e.value.1) then Saved(e.value.0, e.value.1)
      else OutOfRange
  }

  /** A reply without a colon is read the same way by the manual and the batch parsers. */
  lemma ManualMatchesBatch(text: string)
    requires ':' !in text
    ensures ManualEntry(text).Saved? <==> ParseEntry(text).Some? && InRange(ParseEntry(text).value.1)
    ensures ManualEntry(text).Saved? ==> ParseEntry(text) == Some((ManualEntry(text).movie, ManualEntry(text).rating))
  {
    assert ReplaceChar(text, ':', ' ') == text;
  }

  /**
   * The manual reply: a saved rating when it reads as one in 1..5; a failing
   * `add_rating` (no `"ratings"` entry) is caught and reported as a format error.
   */
  method ManualRate(text: string, storage: Storage) returns (outcome: ManualOutcome)
    modifies storage
    ensures !ManualEntry(text).Saved? ==> outcome == ManualEntry(text)
    ensures ManualEntry(text).Saved? ==>
              outcome == if old(storage.GetLocalUser()).ratings.Some? then ManualEntry(text) else BadFormat
    ensures outcome.Saved? ==>
              && storage.GetLocalUser().ratings ==
                 Some(Put(old(storage.GetLocalUser()).ratings.value, RatingKey(outcome.movie), Number(outcome.rating)))
              && storage.Valid()
    ensures !outcome.Saved? ==> storage.localUser == old(storage.localUser) && storage.file == old(storage.file)
  {
    outcome := ManualEntry(text);
    if outcome.Saved? {
      var ok := storage.AddRating(outcome.movie, outcome.rating);
      if !ok {
        outcome := BadFormat;
      }
    }
  }
}
