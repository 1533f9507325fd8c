# Item-based movie recommender: a Dafny model

This project models the core of a small Telegram movie-recommendation bot
built on the MovieLens 100k dataset (`lab03/`), and one stand-alone routine
that compares the outputs of two emotion classifiers (`comparer.py`).

- **Data repository** (`DataHandler`). The ratings table is a sequence of
  `(user, movie, rating)` rows. The user × movie pivot table stores, in each
  cell, the mean of the user's ratings of the movie, with 0 where there are
  none. The item file supplies titles and genre flags. Lookups cover a user's
  positive ratings, the user list, titles with a fallback name, genres, the
  most rated movies, and a random sample.
- **Similarity** (`Similarity`, `Stats`). There are two Pearson correlations:
  - item–item, over the inner join of two movies' rating rows on the user;
  - user–user, over the movies both users rated.
  Each is undefined when the support is too small or one side is constant.
- **Recommender** (`CollabFiltering`):
  - the item–item similarity matrix, built with a nested loop and cached on disk;
  - the neighbour-weighted rating predictor, clipped to [1, 5];
  - the recommendation list, with a popularity fallback.
- **Local store** (`LocalStore`). A JSON document holds the bot user's
  ratings under `"local_user"`.
- **Bot logic** (`Bot`):
  - reading the stored ratings back as numbers;
  - finding the most similar real user;
  - parsing a batch reply (`id:rating, id rating, ...`) and a single manual
    rating, and saving them.
- **Emotion comparer** (`Comparer`). It lower-cases the labels of both
  classifiers, sums them into six fixed groups, and marks the second model's
  score as absent when none of a group's labels occur.

Pure code (the similarity functions, lookups, parsers and the comparer) is
written as functions and lemmas. Code that updates state step by step is
written as methods with loops, proved against those functions:

- the matrix build;
- the prediction and recommendation loops;
- the genre loop and the data loading;
- the store;
- the bot's loops.

Python dicts whose insertion order matters are association lists
(`Dicts.Dict`). `Get` returns the first entry for a key; `Put` replaces that
entry in place or appends a new one.

`math.sqrt` is a parameter `sqrt: real -> real`. Range, definedness and
identity results require `Stats.IsSqrt(sqrt)`: for every `x >= 0`, `sqrt(x)` is
non-negative and `sqrt(x) * sqrt(x) == x`. Arithmetic is exact (`real`).

The similarity matrix is modelled as the code builds it, and it is not
symmetric. Each outer pass resets the row of its movie (`sim[item_i] = {}`),
which throws away the mirror entries earlier passes wrote into that row. So a
finished row of `a` holds only movies that come after `a` in first-appearance
order (`CollabFiltering.IsBuiltMatrix`, `BuiltOneSided`).

## Model

| member | source | states |
|---|---|---|
| Similarity.RowsOf | lab03/similarity.py:16-17 | A movie's slice holds exactly the table's rows for that movie, as `(user, rating)` pairs with the same multiplicities; it is empty exactly when no row names the movie |
| Similarity.ItemSimilarity | lab03/similarity.py:16-43 | Specification of the item similarity: None for an empty slice or a join shorter than `min_common`, otherwise the Pearson correlation of the joined rating columns. It has no ensures of its own; its properties are the `ItemSimilarity…` lemmas below |
| Similarity.ItemSimilaritySupport | lab03/similarity.py:16-25 | A defined item similarity means both movies have rows, and the join has at least `min_common` rows and at least two |
| Similarity.ItemSimilarityDefined | lab03/similarity.py:16-41 | With a true square root, the item similarity is defined iff both slices are non-empty, the join has at least `min_common` rows (and at least one), and neither joined rating column is constant |
| Similarity.ItemSimilarityRange | lab03/similarity.py:32-43 | A defined item similarity lies in [-1, 1] |
| Similarity.ItemSimilaritySwap | lab03/similarity.py:16-43 | Swapping the two movies gives the same result, defined or not |
| Similarity.ItemSimilarityIdentical | lab03/similarity.py:27-43 | When the two joined rating columns coincide, a defined similarity is exactly 1 |
| Similarity.JoinSwap | lab03/similarity.py:22 | Joining the slices the other way round gives the same multiset of rating pairs, each pair swapped |
| Similarity.PairPearsonPermutation | lab03/similarity.py:27-43 | The correlation of the joined pairs depends only on the multiset of pairs, not on the row order of the join |
| Similarity.CommonKeys | lab03/similarity.py:54 | Holds exactly the movies both users rated, each once, ascending |
| Similarity.Values | lab03/similarity.py:58-59 | Element i is the user's rating of the i-th common movie |
| Similarity.Deviations | lab03/similarity.py:65-73 | The zip loop's three accumulators equal the centred cross product and the two centred sums of squares |
| Similarity.UserSimilarity | lab03/similarity.py:45-82 | Specification of the user similarity: None with fewer than `min_common` common movies, otherwise the Pearson correlation of the two users' common ratings. It has no ensures of its own; its properties are the `UserSimilarity…` lemmas below |
| Similarity.UserPearsonSimilarity | lab03/similarity.py:45-82 | The method's result equals the user-similarity specification, including every None case |
| Similarity.UserSimilaritySwap | lab03/similarity.py:54-82 | Swapping the two users gives the same result |
| Similarity.UserSimilarityLocal | lab03/similarity.py:54-59 | The result depends only on the ratings of movies both users rated; all other entries are ignored |
| Similarity.UserSimilarityDefined | lab03/similarity.py:54-76 | With a true square root, defined iff there are at least `min_common` common movies (and at least one) and neither user's common ratings are constant; then there are at least two |
| Similarity.UserSimilarityRange | lab03/similarity.py:65-82 | A defined user similarity lies in [-1, 1] |
| Similarity.UserSimilarityIdentical | lab03/similarity.py:65-82 | Users who agree on every common movie have similarity exactly 1 when it is defined |
| Stats.PearsonSupport | lab03/similarity.py:27-43 | Whatever the square root, a defined correlation rests on at least two pairs |
| Stats.CorrelationAt | lab03/similarity.py:78-81 | With both centred sums of squares positive, the result is undefined exactly when the product of their roots is 0, and is otherwise the cross sum divided by that product |
| Stats.PearsonDefined | lab03/similarity.py:32-41 | Pearson is defined iff the vectors are non-empty and neither is constant (both centred sums of squares positive); a defined value rests on at least two points |
| Stats.PearsonRange | lab03/similarity.py:32-43 | A defined Pearson value lies in [-1, 1] |
| Stats.PearsonSwap | lab03/similarity.py:32-43 | Pearson is symmetric in its two vectors |
| Stats.PearsonIdentical | lab03/similarity.py:32-43 | A vector correlated with itself gives 1 when defined |
| Stats.CauchySchwarz | lab03/similarity.py:32-39 | The squared cross product is at most the product of the sums of squares, which is what bounds the correlation |
| Stats.DeviationPositive | lab03/similarity.py:33-37 | The centred sum of squares is non-negative, and positive exactly when the values are not all equal |
| Stats.MeanWithin | lab03/data_handler.py:87-92 | The mean of ratings that lie within bounds lies within the same bounds |
| DataHandler.PivotTable | lab03/data_handler.py:87-92 | Row labels are exactly the users and column labels exactly the movies of the ratings, each strictly ascending |
| DataHandler.RatingsFor | lab03/data_handler.py:87-92 | The ratings aggregated into a cell are exactly the user's ratings of the movie, with their multiplicities; empty exactly when the user never rated the movie |
| DataHandler.CellRated | lab03/data_handler.py:87-92 | With positive ratings a cell is never negative, and it is positive exactly when the user rated the movie (0 is the "not rated" mark) |
| DataHandler.CellWithin | lab03/data_handler.py:87-92 | A rated cell, being a mean, lies within the bounds of the rating scale |
| DataHandler.PositiveCells | lab03/data_handler.py:103-104 | Holds exactly the columns whose cell is positive, each with its cell value unchanged |
| DataHandler.PositiveCellsDistinct | lab03/data_handler.py:104 | The resulting dict has no movie twice |
| DataHandler.FlaggedGenresExact | lab03/data_handler.py:62-68 | A line's genre list holds exactly the genre names whose flag is 1, and no more than there are genres |
| DataHandler.DecodeGenres | lab03/data_handler.py:62-68 | The inner genre loop yields the flagged genre names in column order |
| DataHandler.GenreMapLookup | lab03/data_handler.py:60-69 | A listed movie's genres come from its last line; a movie the file does not list keeps its earlier entry |
| DataHandler.TitlesOf | lab03/data_handler.py:59 | One title entry per line of the item file, in file order, each pairing that line's id with its title |
| DataHandler.TopPopularRanked | lab03/data_handler.py:147-148 | The popular list holds min(n, number of movies) distinct rated movies, ordered by rating count, non-increasing |
| DataHandler.TopPopularTop | lab03/data_handler.py:147-148 | No movie left off the popular list has more ratings than a movie on it |
| DataHandler.TopPopular | lab03/data_handler.py:147-148 | The popular list: rated movies by rating count, most rated first, cut to n; empty for n <= 0. Its ranking and top-ness are proved in `TopPopularRanked` and `TopPopularTop` |
| DataHandler.DataProcessor.constructor | lab03/data_handler.py:13-25 | Starts with no ratings, no table, no titles and no genres |
| DataHandler.DataProcessor.LoadData | lab03/data_handler.py:27-78 | An unreadable ratings file leaves an empty ratings frame and nothing else changed; otherwise the ratings are stored, titles and genres follow the item file, and the table is their pivot |
| DataHandler.DataProcessor.ReadItems | lab03/data_handler.py:48-74 | A readable item file sets titles and genres as the genre loop defines them; a non-numeric id empties both |
| DataHandler.DataProcessor.CreateUserItemTable | lab03/data_handler.py:80-92 | The table becomes the pivot of the ratings, or an empty frame without ratings; nothing else changes |
| DataHandler.DataProcessor.GetUserRatings | lab03/data_handler.py:94-104 | Empty without a table or for an unknown user; otherwise exactly the user's positive cells with their values |
| DataHandler.DataProcessor.UserRatingsDistinct | lab03/data_handler.py:104 | The returned dict has no movie twice |
| DataHandler.DataProcessor.GetAllUsers | lab03/data_handler.py:106-114 | Empty without a table; otherwise exactly the users of the ratings, ascending |
| DataHandler.DataProcessor.GetMovieTitle | lab03/data_handler.py:116-127 | The first stored title of a known movie; otherwise "Фильм " followed by digits that read back as the id |
| DataHandler.DataProcessor.GetMovieGenres | lab03/data_handler.py:129-136 | The stored genre list, or empty for an unknown movie |
| DataHandler.DataProcessor.GetTopPopularMovies | lab03/data_handler.py:138-148 | Empty for no or empty ratings or n <= 0; otherwise at most n distinct rated movies |
| DataHandler.DataProcessor.GetRandomMovies | lab03/data_handler.py:150-164 | Fails exactly for a negative count when there are titles or a ratings frame; otherwise returns min(n, catalogue size) movies, all from the catalogue |
| Seqs.SortDesc | lab03/collab_filtering.py:135 | The result is a permutation of the input, sorted by key, non-increasing |
| Seqs.SortDescStable | lab03/collab_filtering.py:135 | The sort is stable: the entries with any one key value appear in the same relative order as in the input, as with `list.sort` |
| Seqs.SortDescDistinct | lab03/collab_filtering.py:135 | Sorting keeps a list free of repetitions |
| Seqs.TakeSortedTop | lab03/collab_filtering.py:135-136 | Every element cut off after sorting has a key no larger than any element kept |
| Seqs.Take | lab03/collab_filtering.py:136 | Python's `xs[:k]`, for negative k too: a prefix of the stated length |
| Seqs.Ascending | lab03/data_handler.py:87-92 | The distinct values, strictly ascending (the order of pivot labels) |
| Seqs.Unique | lab03/collab_filtering.py:88 | Each value once, nothing added, in order of first appearance (a value that appears earlier in the input comes earlier in the result) |
| Seqs.PermutationDistinctIds | lab03/collab_filtering.py:204 | Reordering a list whose movies are distinct keeps them distinct |
| CollabFiltering.FillRow | lab03/collab_filtering.py:93-106 | One outer pass: the earlier rows stay finished and the current row becomes finished |
| CollabFiltering.FillMatrix | lab03/collab_filtering.py:90-108 | The nested loops leave a row for every movie; the row of `a` holds exactly the later movies whose similarity is defined and above 0.1 in magnitude, with that similarity |
| CollabFiltering.AllRowsDone | lab03/collab_filtering.py:92-106 | Finished rows for all movies make the built matrix |
| CollabFiltering.BuiltNoSelf | lab03/collab_filtering.py:97 | No movie is stored as similar to itself |
| CollabFiltering.BuiltOneSided | lab03/collab_filtering.py:93 | `sim[a][b]` and `sim[b][a]` are never both stored, because the row reset discards mirror entries |
| CollabFiltering.BuiltStrong | lab03/collab_filtering.py:102-103 | Every stored similarity has magnitude above 0.1 |
| CollabFiltering.IsBuiltMatrix | lab03/collab_filtering.py:90-108 | Defines the matrix the nested loops leave: a row for every movie, the row of `a` holding the later movies whose similarity is kept, with that similarity. It has no ensures of its own; `FillMatrix` establishes it and `BuiltNoSelf`, `BuiltOneSided` and `BuiltStrong` are proved from it |
| CollabFiltering.SaveRecord | lab03/collab_filtering.py:70-74 | The record written to the cache is one the cache check accepts for the same hyperparameters, and carries the matrix |
| CollabFiltering.Candidates | lab03/collab_filtering.py:126-130 | Exactly the user's rated movies with a positive similarity to the target, carrying that similarity and the user's rating |
| CollabFiltering.GatherCandidates | lab03/collab_filtering.py:126-130 | The gathering loop yields the candidate list |
| CollabFiltering.NeighboursTop | lab03/collab_filtering.py:135-136 | At most k neighbours, all candidates, most similar first; none left out is more similar than one kept; none only when no candidates remain after the cut |
| CollabFiltering.NeighboursPositive | lab03/collab_filtering.py:129-136 | Every neighbour used has a positive similarity |
| CollabFiltering.WeightedDenominator | lab03/collab_filtering.py:157-159 | With positive similarities the denominator is positive exactly when a neighbour is left |
| CollabFiltering.FirstMissing | lab03/collab_filtering.py:149-150 | None exactly when every neighbour is a table column; otherwise a neighbour that is not |
| CollabFiltering.FirstMissingPrefix | lab03/collab_filtering.py:149-150 | The first missing column found in a prefix is the first missing column of the whole list |
| CollabFiltering.Accumulate | lab03/collab_filtering.py:146-157 | The loop raises on the first neighbour missing from the table; otherwise it returns the weighted-deviation numerator and denominator |
| CollabFiltering.EstimateRating | lab03/collab_filtering.py:142-166 | The tail of the predictor equals the estimate specification |
| CollabFiltering.Clip | lab03/collab_filtering.py:164 | The result lies in [1, 5]; values inside are unchanged, values below become 1 and values above become 5 |
| CollabFiltering.PredictionRange | lab03/collab_filtering.py:162-166 | A defined prediction lies in [1, 5] |
| CollabFiltering.PredictionDefined | lab03/collab_filtering.py:123-166 | A prediction exists iff the user has ratings, some has a positive similarity to the target, the cut leaves a neighbour, and the target and every neighbour are table columns |
| CollabFiltering.EstimateDefined | lab03/collab_filtering.py:146-166 | With positive similarities an estimate exists iff a neighbour is left and all neighbours are columns |
| CollabFiltering.Prediction | lab03/collab_filtering.py:123-166 | Specification of `predict_rating`: None for no user ratings, no candidates or a target outside the table, otherwise the estimate over the top k neighbours. It has no ensures of its own; `PredictionRange` and `PredictionDefined` state its properties |
| CollabFiltering.Estimate | lab03/collab_filtering.py:142-166 | Specification of the predictor's tail: Err for the first neighbour missing from the table, None for a zero denominator, otherwise the column mean plus the weighted deviation, clipped. It has no ensures of its own; `EstimateDefined` and `PredictionRange` state its properties |
| CollabFiltering.Unwatched | lab03/collab_filtering.py:180-181 | A movie is in the result exactly when it is popular and not watched; no longer than the popular list, and no repetitions when the popular list has none |
| CollabFiltering.UnwatchedOrder | lab03/collab_filtering.py:180-181 | The comprehension keeps the popular list's order: an earlier result entry comes earlier in the popular list |
| CollabFiltering.UnwatchedAppend | lab03/collab_filtering.py:180-181 | Filtering a concatenation is concatenating the filtered parts |
| CollabFiltering.FallbackPrefix | lab03/collab_filtering.py:197-203 | The fallback loop's result (`FallbackOf`) is the first entries of the unwatched popular list, each with 0.0: min(count, available) of them for count >= 1, and at most one (the first popular movie, when unwatched) for count < 1, since the check comes after the append |
| CollabFiltering.FallbackContents | lab03/collab_filtering.py:197-203 | Every fallback entry is an unwatched popular movie with 0.0, distinct, at most `count` for count >= 1; when fewer are collected, every unwatched popular movie is there |
| CollabFiltering.PopularFallback | lab03/collab_filtering.py:197-203 | The loop with its early `break` returns exactly `FallbackOf`, the fallback specification |
| CollabFiltering.CandidateIds | lab03/collab_filtering.py:180-186 | The candidates are the first min(1000, available) unwatched popular movies in popular order. The cut to 1000 never shortens the list, because the popular list holds at most 1000 movies |
| CollabFiltering.ScoredOutcome | lab03/collab_filtering.py:188-192 | The scoring loop (`Scored`) succeeds iff every candidate's prediction succeeds; otherwise it carries the error of the first candidate whose prediction raises |
| CollabFiltering.ScoredMembers | lab03/collab_filtering.py:188-192 | On success an entry is in the predicted list iff its movie is a candidate predicted above 3.0 and its score is that prediction; the list is empty iff no candidate is predicted above 3.0; distinct candidates give distinct entries |
| CollabFiltering.ScoredPrefixErr | lab03/collab_filtering.py:188-192 | Once a prefix of the candidates raises, the whole loop raises the same error |
| CollabFiltering.ScoredAll | lab03/collab_filtering.py:188-192 | Every candidate predicted above 3.0 ends up in the predicted list with its prediction |
| CollabFiltering.RankPredicted | lab03/collab_filtering.py:204-205 | The sorted, cut list has at most `count` entries taken from the predicted list, distinct, best score first |
| CollabFiltering.TopOfPredicted | lab03/collab_filtering.py:204-205 | The sorted, cut list has min(count, predicted) entries for count >= 0, and no predicted entry left out scores higher than one kept |
| CollabFiltering.RecommendationBranches | lab03/collab_filtering.py:179-205 | The recommendation (`Recommendation`) is Err iff some candidate's prediction raises, carrying the first such error; it is the popular fallback iff no candidate is predicted above 3.0; otherwise it is the predicted list sorted by score, best first, cut to `count` |
| CollabFiltering.RankedRecommendation | lab03/collab_filtering.py:188-205 | On the predicted path the result has exactly min(count, predicted) distinct entries, none watched, each above 3.0 with its movie's prediction, and none left out scores higher than one kept |
| CollabFiltering.RecommendationFacts | lab03/collab_filtering.py:179-205 | Any successful recommendation has no watched movie, at most `count` distinct entries, and is either predicted scores above 3.0 (each the movie's prediction) or 0.0 entries from the fallback list. It assumes the fallback list is empty for count <= 0, which is what the top 2·count popular list is |
| CollabFiltering.CollaborativeFiltering.constructor | lab03/collab_filtering.py:15-29 | Stores the repository and hyperparameters, with an empty matrix and the flag unset |
| CollabFiltering.CollaborativeFiltering.BuildItemSimilarity | lab03/collab_filtering.py:81-109 | The matrix becomes the built matrix over the distinct movies in first-appearance order, using the item similarity |
| CollabFiltering.CollaborativeFiltering.LoadFromCache | lab03/collab_filtering.py:47-62 | The cache is adopted iff both hyperparameters match and it holds a matrix; otherwise the matrix is unchanged |
| CollabFiltering.CollaborativeFiltering.EnsureBuilt | lab03/collab_filtering.py:31-45 | Afterwards the flag is set. Once built, nothing changes. On a cache hit the cached matrix is taken. Otherwise the matrix is built and the record saved |
| CollabFiltering.CollaborativeFiltering.PredictRating | lab03/collab_filtering.py:111-166 | The method returns the prediction specification, with k defaulting to `top_k` |
| CollabFiltering.CollaborativeFiltering.ScoreCandidates | lab03/collab_filtering.py:188-192 | Returns exactly `Scored` over the candidates: the first KeyError, or the candidates predicted above 3.0 with their predictions (all at most 5), distinct |
| CollabFiltering.CollaborativeFiltering.GenerateRecommendations | lab03/collab_filtering.py:168-205 | First the matrix is ensured, as `EnsureBuilt` states: kept once built, the cached matrix on a cache hit, otherwise the built matrix, with the cache record it saves returned. Then it returns exactly `Recommendation` over the top 1000 popular movies, the top 2·count popular movies, the rated movies and the predictor of that matrix. So it never recommends a rated movie; it has at most `count` distinct entries; it is either scores above 3.0, best first, each the movie's prediction, or the 0.0 fallback |
| CollabFiltering.CollaborativeFiltering.Recommend | lab03/collab_filtering.py:179-205 | Once the matrix exists, returns exactly `Recommendation`, with the same guarantees |
| CollabFiltering.CollaborativeFiltering.Fallback | lab03/collab_filtering.py:194-203 | Returns exactly `FallbackOf` over the top 2·count popular list: unwatched movies with 0.0, distinct, at most `count`, and every unwatched one of that list when fewer are collected |
| LocalStore.Loaded | lab03/storage.py:21-36 | The stored `"local_user"` entry, or `{"ratings": {}}` when the file is missing, unreadable or lacks it |
| LocalStore.RatingKeyRoundTrip | lab03/storage.py:63 | The key written for a movie reads back as that movie |
| LocalStore.RatingKeyInjective | lab03/storage.py:63 | Two movies share a key only if they are the same movie |
| LocalStore.Storage.constructor | lab03/storage.py:11-36 | The entry is present after loading, equal to the loaded one, and the file holds it |
| LocalStore.Storage.GetLocalUser | lab03/storage.py:46-52 | The entry, or `{"ratings": {}}` when it is absent |
| LocalStore.Storage.AddRating | lab03/storage.py:54-64 | Succeeds iff the entry has a ratings member. On success the movie's key maps to the new rating, every other key keeps its value, and the file equals memory. On failure nothing changes. There is no range check |
| LocalStore.Storage.ClearLocalUser | lab03/storage.py:66-71 | The entry becomes `{"ratings": {}}` and the file holds it |
| Dicts.GetPut | lab03/storage.py:63 | Dict item assignment: the assigned key reads the new value, and every other key reads what it read before |
| Dicts.PutDistinct | lab03/storage.py:63 | Assignment keeps every key unique |
| Dicts.PutKeys | lab03/storage.py:63 | Assignment adds the key to the dict's keys and no other, and grows the dict by one item exactly when the key was new |
| Text.Strip | lab03/bot.py:308 | No longer than its input, with no whitespace at either end, and a slice of the input with only whitespace cut off on each side |
| Text.TrimSlice | lab03/bot.py:308 | Trimming left then right leaves a slice of the input with only whitespace removed around it and none at its ends |
| Text.StripIdempotent | lab03/bot.py:327-328 | Stripping twice is stripping once |
| Text.Words | lab03/bot.py:275 | Every word is a non-empty run without whitespace; the words concatenated are the input without its whitespace; no words exactly when the input is all whitespace |
| Text.WordsSpaceFront | lab03/bot.py:275 | Leading whitespace does not change the words |
| Text.WordsWordFront | lab03/bot.py:275 | Words are maximal runs: a non-whitespace run followed by whitespace is one whole word, and the split continues after the whitespace |
| Text.WordsWord | lab03/bot.py:275 | A single non-whitespace run is exactly one word |
| Text.WordsUnwords | lab03/bot.py:275 | Round trip: words joined by single spaces split back into the same words |
| Text.SplitOn | lab03/bot.py:308 | At least one piece, no piece contains the separator, and joining the pieces with the separator gives back the input |
| Text.ReplaceChar | lab03/bot.py:275 | Same length, with each occurrence of the character replaced and everything else kept |
| Text.ParseFloatStrip | lab03/bot.py:328 | `float(s.strip())` is `float(s)` |
| Text.ParseInt | lab03/bot.py:325-327 | `int()` on a string: the stripped text as a decimal integer literal; a success means the stripped text is non-empty |
| Text.ParseFloat | lab03/bot.py:328 | `float()` on a string: the stripped text as a decimal literal; a success means the stripped text is non-empty |
| Text.IntToStringRoundTrip | lab03/bot.py:38 | `int(str(n)) == n` for every integer |
| Text.IntToStringInjective | lab03/storage.py:63 | Different integers print differently |
| Bot.ConvertedKeys | lab03/bot.py:35-41 | A movie is in the result exactly when some stored item converts to it; items whose key or value does not convert are dropped |
| Bot.ConvertedLast | lab03/bot.py:36-38 | The value read for a movie is that of the last item converting to it |
| Bot.ConvertSaved | lab03/bot.py:38 | An item as `add_rating` writes it converts back to its movie and rating |
| Bot.ConvertKey | lab03/bot.py:38 | An item converts to a movie only if its key reads as that movie |
| Bot.SavedReadsBack | lab03/bot.py:34-41 | After saving a rating, the bot reads back that rating for the movie |
| Bot.ConvertAll | lab03/bot.py:35-41 | The conversion loop builds the converted dict |
| Bot.LocalUserRatings | lab03/bot.py:28-41 | The dict built from the stored items of the local user |
| Bot.BestMatch | lab03/bot.py:56-71 | Returns the first user whose similarity is defined, above -1.0 and maximal, with that similarity; with none, `(None, 0.0)` and every defined similarity is at most -1.0 |
| Bot.FindMostSimilarRealUser | lab03/bot.py:44-74 | `(None, 0.0)` for empty local ratings or no table. Otherwise the best match over `get_all_users()` (a user at exactly -1.0 is never chosen). With a true square root a found score is at most 1 |
| Bot.NonBlankBy | lab03/bot.py:308 | Only non-empty stripped pieces of the input, no more than there were |
| Bot.NonBlankMembers | lab03/bot.py:308 | A string is kept iff it is non-empty and is some piece stripped |
| Bot.NonBlankAppend | lab03/bot.py:308 | The comprehension over a concatenation is the concatenation of the comprehensions |
| Bot.ParseEntry | lab03/bot.py:313-328 | Specification of one piece: without a colon the first two words as int and float, with one the two sides of the first colon, stripped; None where Python hits `continue`. It has no ensures of its own; `ParseEntryRoundTrip`, `KeyParses` and `ColonSplit` state its properties |
| Bot.ParseEntryRoundTrip | lab03/bot.py:324-328 | `id:rating` with an id as the store writes it reads back as that id and `float(rating)`, and fails exactly when the rating does not parse |
| Bot.KeyParses | lab03/bot.py:325-327 | A stored key has no colon and reads back, stripped, as its movie |
| Bot.ColonSplit | lab03/bot.py:325 | `left:right` splits at the first colon into `left` and `right` when `left` has none |
| Bot.AcceptedBy | lab03/bot.py:313-331 | At most one entry per piece, each with a rating in [1, 5] |
| Bot.AcceptedMembers | lab03/bot.py:313-331 | An entry is accepted iff its rating is in [1, 5] and some piece parses to it |
| Bot.AcceptedAppend | lab03/bot.py:312-333 | Accepting a concatenation of pieces accepts the entries of each part, in order |
| Bot.AcceptedPrefix | lab03/bot.py:313-333 | Reading fewer pieces accepts a prefix of the entries |
| Bot.SaveAllOther | lab03/bot.py:331-332 | A movie no accepted entry names keeps its stored value |
| Bot.SaveAllLast | lab03/bot.py:331-332 | A movie named several times keeps the rating of its last accepted entry |
| Bot.SaveEntries | lab03/bot.py:312-335 | The loop saves the accepted entries in order and counts them; a KeyError on the first save leaves the store unchanged |
| Bot.ParseAndSaveRatings | lab03/bot.py:301-335 | Counts exactly the accepted entries, never more than the pieces; 0 for blank text. Ratings become the old ratings with each accepted entry saved, and the file equals memory. Fails only on a missing ratings member, with nothing written |
| Bot.ManualMatchesBatch | lab03/bot.py:275-282 | A reply without a colon is read the same way, with the same id and rating, by the manual and batch parsers |
| Bot.ManualEntry | lab03/bot.py:275-290 | Specification of the manual reply: too few words, a bad number, an out-of-range rating, or an entry to save. It has no ensures of its own; `ManualMatchesBatch` and `ManualRate` state its properties |
| Bot.ManualRate | lab03/bot.py:274-290 | Too few words, a bad number or an out-of-range rating saves nothing and reports that. A valid entry is saved into the ratings with the file updated; a store without ratings is reported as a format error |
| Comparer.Lower | comparer.py:10-11 | Same length, each character lower-cased |
| Comparer.LowerIdempotent | comparer.py:10-11 | Lower-casing twice is lower-casing once |
| Comparer.LowerKeysKeys | comparer.py:11 | The dict holds a label exactly when some key lower-cases to it |
| Comparer.LowerKeysLast | comparer.py:11 | A label takes the value of the last item whose key lower-cases to it |
| Comparer.LowerKeysLowered | comparer.py:10-11 | Lower-casing the keys first changes nothing |
| Comparer.TtePresent | comparer.py:26 | Empty exactly when none of the group's labels is a key of the second result; one value per present label, no more than the labels, and a value occurs iff some present label has it |
| Comparer.TtePresentAppend | comparer.py:26 | Collecting over a concatenation of labels is concatenating the collections |
| Comparer.CompareKeys | comparer.py:15-32 | The result has exactly the six group names as keys, each once, in group order |
| Comparer.NamesDistinct | comparer.py:15-22 | No two groups share a name |
| Comparer.CompareEmotions | comparer.py:1-34 | Specification of the comparer: for each of the six groups in order, the first model's summed score and the second model's summed score, absent when none of its labels occur. It has no ensures of its own; the lemmas around it state its properties |
| Comparer.NlpScoreFrame | comparer.py:25 | A group's first-model score depends only on the scores of its own labels |
| Comparer.TtePresentFrame | comparer.py:26 | A group's second-model values depend only on its own labels |
| Comparer.NoScoredLabels | comparer.py:10-25 | Without `"scored_labels"` every group's first-model score is 0.0 |
| Comparer.TteAbsent | comparer.py:26-27 | A group's second-model score is absent exactly when no emotion of the second result lower-cases to one of its labels |
| Comparer.NlpLastScore | comparer.py:10 | A label's first-model score is the last score given to it |
| Comparer.CaseInsensitive | comparer.py:10-11 | Lower-casing both inputs beforehand gives the same result |
| Comparer.UngroupedNlpLabel | comparer.py:10-25 | A first-model label belonging to no group leaves the result unchanged |
| Comparer.UngroupedTteLabel | comparer.py:11-27 | A second-model emotion belonging to no group leaves the result unchanged |

## Left out

- Reading the files is not modelled. This covers `u.data` and `u.item` through pandas, the pickle cache, and the JSON store. `LoadData`, `LoadFromCache` and the `Storage` constructor receive the parsed content, or a marker for a missing or unreadable file. The JSON file is a ghost snapshot that every save sets equal to memory.
- `print` logging and the Telegram replies are not modelled. The manual-rate branch returns its outcome; looking up the title for the reply is left out.
- Concurrency is not modelled: neither the `asyncio.Lock` nor the executor threads. `EnsureBuilt` and `FindMostSimilarRealUser` run sequentially.
- Floating point is not modelled. Ratings and scores are exact reals. `math.sqrt` is a parameter, assumed exact by the lemmas that require `IsSqrt`, so rounding effects such as a result slightly outside [-1, 1] are not captured.
- Randomness is replaced by a parameter. `GetRandomMovies` takes the arrangement `random.sample` would draw. The random pick of start movies elsewhere in `lab03/bot.py` is not part of this model.
- `Text.ParseInt` and `Text.ParseFloat` model `int()` and `float()` on decimal literals with optional sign, underscores between digits, and surrounding whitespace. Exponents, `inf`/`nan`, non-ASCII digits and hexadecimal prefixes are rejected, though Python accepts some of them.
- `Comparer.Lower` lower-cases ASCII letters only; Python's full Unicode case mapping is not modelled.
- JSON shapes other than the expected ones are not modelled. This covers a `"local_user"` or `"ratings"` value that is not an object, and classifier entries without `"label"` or `"score"` (a KeyError in Python). Stored rating values are numbers, strings, booleans or "other"; `ToFloat` follows `float()` on each.
- Similarity.UserSimilarity requires `min_common >= 1` or a non-empty common set. The source divides by zero when both fail.
- Bot.FindMostSimilarRealUser requires `min_common >= 1`, the configured value. Without that, an empty common set would raise ZeroDivisionError.
- CollabFiltering.CollaborativeFiltering.BuildItemSimilarity requires ratings to have been read. The source raises TypeError when `ratings_df` is None. `EnsureBuilt` and `GenerateRecommendations` require the same unless the flag is set or the cache hits.
- Similarity.CommonKeys enumerates the common movies in ascending order. Python leaves the order of a `set` to the implementation. In exact arithmetic the sums do not depend on the order (`PairPearsonPermutation` shows this for the item join).
- A KeyError inside `predict_rating` is an `Err` result carrying the missing movie. This happens when a neighbour from a cached matrix is not a table column. `GenerateRecommendations` passes it on instead of raising.
- Bot.ParseAndSaveRatings returns `None` for the KeyError that `add_rating` raises when the stored entry has no `"ratings"` member. In Python that exception escapes the handler.
- DataHandler.DataProcessor.ReadItems assigns the titles after the genre loop instead of before it. The resulting state is the same.
- DataHandler.DataProcessor.GetTopPopularMovies sorts by count with a stable insertion sort over ascending movie ids, so ties keep ascending id order. pandas' `nlargest` does not promise this: when n is at least the number of movies it sorts with an unstable algorithm, so the order among movies with equal counts may differ. The set of movies and the order by count are the same.
