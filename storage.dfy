/**
 * The local user's rating store (lab03/storage.py). The JSON document is
 * reduced to its `"local_user"` entry: an object that may or may not have a
 * `"ratings"` member mapping movie-id strings to values. The file itself is a
 * ghost snapshot that `_save` sets to the in-memory entry.
 */
module LocalStore {
  import opened Wrappers
  import opened Dicts
  import Text

  /** A rating value as the JSON file holds it (null, lists and objects are `OtherJson`). */
  datatype Value = Number(x: real) | Str(s: string) | Bool(b: bool) | OtherJson

  /** The `"local_user"` object, through its `"ratings"` member if it has one. */
  datatype UserRecord = UserRecord(ratings: Option<Dict<string, Value>>)

  /** `{"ratings": {}}` */
  const EmptyUser := UserRecord(Some([]))

  /** The JSON file when the store opens: absent, unreadable, or a document whose `"local_user"` entry may be missing. */
  datatype FileState = Missing | Unreadable | Stored(localUser: Option<UserRecord>)

  /** The `"local_user"` entry after `_load`. */
  function Loaded(file: FileState): (u: UserRecord)
    ensures file.Stored? && file.localUser.Some? ==> u == file.localUser.value
    ensures !(file.Stored? && file.localUser.Some?) ==> u == EmptyUser
  {
    match file
    case Stored(Some(user)) => user
    case _ => EmptyUser
  }

  /** The key `add_rating` writes for a movie: `str(movie_id)`. */
  function RatingKey(movieId: int): string
  {
    Text.IntToString(movieId)
  }

  /** The key reads back as the movie. */
  lemma RatingKeyRoundTrip(a: int)
    ensures Text.ParseInt(RatingKey(a)) == Some(a)
  {
    Text.IntToStringRoundTrip(a);
  }

  /** Two movies never share a key. */
  lemma RatingKeyInjective(a: int, b: int)
    ensures RatingKey(a) == RatingKey(b) <==> a == b
  {
    if RatingKey(a) == RatingKey(b) {
      Text.IntToStringInjective(a, b);
    }
  }

  class Storage {
    /** `_data.get("local_user")` */
    var localUser: Option<UserRecord>
    /** The `"local_user"` entry of the JSON file. */
    ghost var file: FileState

    /** The entry is present and the file holds what memory holds. */
    ghost predicate Valid()
      reads this
    {
      localUser.Some? && file == Stored(localUser)
    }

    /** `Storage(path)` with its `_load`: the entry is created empty and saved when absent. */
    constructor (initial: FileState)
      ensures localUser == Some(Loaded(initial))
      ensures Valid()
    {
      if initial.Stored? && initial.localUser.Some? {
        localUser := initial.localUser;
        file := initial;
      } else {
        localUser := Some(EmptyUser);
        file := Stored(Some(EmptyUser));
      }
    }

    /** `get_local_user`: the entry, or `{"ratings": {}}` when it is missing. */
    function GetLocalUser(): (u: UserRecord)
      reads this
      ensures localUser.None? ==> u == EmptyUser
      ensures localUser.Some? ==> u == localUser.value
    {
      if localUser.Some? then localUser.value else EmptyUser
    }

    /**
     * `add_rating`: no range check; an entry without `"ratings"` raises
     * KeyError (`ok` false) and nothing is written.
     */
    method AddRating(movieId: int, rating: real) returns (ok: bool)
      modifies this
      ensures ok <==> old(GetLocalUser()).ratings.Some?
      ensures ok ==> GetLocalUser().ratings == Some(Put(old(GetLocalUser()).ratings.value, RatingKey(movieId), Number(rating)))
      ensures ok ==> forall k :: Get(GetLocalUser().ratings.value, k) ==
                                 if k == RatingKey(movieId) then Some(Number(rating)) else Get(old(GetLocalUser()).ratings.value, k)
      ensures ok ==> localUser.Some? && file == Stored(localUser)
      ensures !ok ==> localUser == old(localUser) && file == old(file)
    {
      if localUser.None? {
        localUser := Some(EmptyUser);
      }
      var user := localUser.value;
      if user.ratings.None? {
        return false;
      }
      var key := RatingKey(movieId);
      localUser := Some(UserRecord(Some(Put(user.ratings.value, key, Number(rating)))));
      forall k ensures Get(Put(user.ratings.value, key, Number(rating)), k) ==
                       if k == key then Some(Number(rating)) else Get(user.ratings.value, k) {
        GetPut(user.ratings.value, key, Number(rating), k);
      }
      file := Stored(localUser);
      return true;
    }

    /** `clear_local_user`: the entry becomes `{"ratings": {}}` and is saved. */
    method ClearLocalUser()
      modifies this
      ensures GetLocalUser() == EmptyUser
      ensures Valid()
    {
      localUser := Some(EmptyUser);
      file := Stored(localUser);
    }
  }
}
