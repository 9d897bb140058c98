/** The `useFavorites` hook: the signed-in user's favourites as a local list
    that follows the inserts and deletes it sends to `user_favorites`. */
module Favorites {
  import opened Wrappers
  import opened Seqs
  import opened Tables

  /** A favourite with its embedded course; the generated id and the creation
      time are not modelled. */
  datatype Favorite = Favorite(courseId: string, course: Course)

  /** The message `toggleFavorite` shows. */
  datatype Notice = LoginRequired | Removed | Added | Failed

  /** `favorites.some(fav => fav.course_id === courseId)`. */
  predicate IsFavorite(favs: seq<Favorite>, courseId: string) {
    exists k :: 0 <= k < |favs| && favs[k].courseId == courseId
  }

  /** The list after a removal: every entry of that course goes, the others
      stay in order. */
  function Without(favs: seq<Favorite>, courseId: string): (r: seq<Favorite>)
    ensures IsSubseq(r, favs)
    ensures forall f :: f in r <==> f in favs && f.courseId != courseId
    ensures !IsFavorite(r, courseId)
  {
    var r := Filter(favs, (f: Favorite) => f.courseId != courseId);
    assert forall k :: 0 <= k < |r| ==> r[k] in r;
    r
  }

  /** The list after an addition: one entry for the course in front. */
  function With(favs: seq<Favorite>, courseId: string, course: Course): (r: seq<Favorite>)
    ensures |r| == |favs| + 1 && r[0] == Favorite(courseId, course) && r[1..] == favs
    ensures IsFavorite(r, courseId)
  {
    [Favorite(courseId, course)] + favs
  }

  /** Adding a course that was not a favourite and removing it again gives
      back the original list. */
  lemma AddThenRemove(favs: seq<Favorite>, courseId: string, course: Course)
    requires !IsFavorite(favs, courseId)
    ensures Without(With(favs, courseId, course), courseId) == favs
  {
    var keep := (f: Favorite) => f.courseId != courseId;
    assert forall k :: 0 <= k < |favs| ==> keep(favs[k]);
    FilterAll(favs, keep);
    assert With(favs, courseId, course) == [Favorite(courseId, course)] + favs;
    FilterAppend([Favorite(courseId, course)], favs, keep);
  }

  /** Removing is idempotent. */
  lemma RemoveTwice(favs: seq<Favorite>, courseId: string)
    ensures Without(Without(favs, courseId), courseId) == Without(favs, courseId)
  {
    var r := Without(favs, courseId);
    assert forall k :: 0 <= k < |r| ==> r[k].courseId != courseId by {
      forall k | 0 <= k < |r| ensures r[k].courseId != courseId {
        assert r[k] in r;
      }
    }
    FilterAll(r, (f: Favorite) => f.courseId != courseId);
  }

  /** The hook's state. */
  class FavoritesHook {
    var favorites: seq<Favorite>
    var loading: bool

    constructor ()
      ensures favorites == [] && loading
    {
      favorites := [];
      loading := true;
    }

    /** `isFavorite(courseId)`. */
    function IsFavoriteNow(courseId: string): (r: bool)
      reads this
      ensures r <==> exists f :: f in favorites && f.courseId == courseId
    {
      assert IsFavorite(favorites, courseId) ==> exists f :: f in favorites && f.courseId == courseId;
      IsFavorite(favorites, courseId)
    }

    /** `fetchFavorites()`: without a user the list is emptied; `failed` is the
        query's error, which keeps the list; `data` is the rows it returned. */
    method FetchFavorites(user: Option<string>, failed: bool, data: Option<seq<Favorite>>)
      modifies this
      ensures !loading
      ensures user.None? ==> favorites == []
      ensures user.Some? && failed ==> favorites == old(favorites)
      ensures user.Some? && !failed ==> favorites == data.GetOr([])
    {
      if user.None? {
        favorites := [];
        loading := false;
        return;
      }
      if !failed {
        favorites := data.GetOr([]);
      }
      loading := false;
    }

    /** `toggleFavorite(courseId)`: `failed` is the delete's or the insert's
        error; `courseData` is the course read back after an insert. */
    method ToggleFavorite(user: Option<string>, courseId: string, failed: bool, courseData: Option<Course>)
      returns (notice: Notice)
      modifies this
      ensures loading == old(loading)
      ensures user.None? ==> favorites == old(favorites) && notice == LoginRequired
      ensures user.Some? && failed ==> favorites == old(favorites) && notice == Failed
      ensures user.Some? && !failed && IsFavorite(old(favorites), courseId) ==>
        favorites == Without(old(favorites), courseId) && notice == Removed
      ensures user.Some? && !failed && !IsFavorite(old(favorites), courseId) ==>
        favorites == (if courseData.Some? then With(old(favorites), courseId, courseData.value) else old(favorites)) &&
        notice == Added
    {
      if user.None? {
        return LoginRequired;
      }
      var current := IsFavoriteNow(courseId);
      if failed {
        return Failed;
      }
      if current {
        favorites := Without(favorites, courseId);
        notice := Removed;
      } else {
        if courseData.Some? {
          favorites := With(favorites, courseId, courseData.value);
        }
        notice := Added;
      }
    }
  }
}
