/** The `useProgress` hook: the user's statistics, and the writes to the
    `course_progress` and `user_favorites` tables it makes when progress is
    saved, a course is started or a favourite is toggled. */
module Progress {
  import opened Wrappers
  import opened Seqs
  import opened Tables

  /** A percentage at or above this completes the course, and is stored as it. */
  const CompleteAt: int := 100
  /** How many recent progress rows and favourites the statistics list. */
  const ListedCount: nat := 3

  /** What `getUserStats` returns. */
  datatype Stats = Stats(
    totalCourses: nat,
    activeCourses: nat,
    completedCourses: nat,
    totalWatchTime: nat,
    favorites: nat,
    recentProgress: seq<ProgressRow>,
    favoritesList: seq<FavoriteRow>)

  function LastWatched(p: ProgressRow): int {
    p.lastWatchedAt
  }

  /** The first `n` rows of a list sorted newest first are sorted too, and
      were watched no earlier than any row left out. */
  lemma TakeSorted(s: seq<ProgressRow>, n: nat)
    requires SortedDesc(s, LastWatched)
    ensures SortedDesc(Take(s, n), LastWatched) && multiset(Take(s, n)) <= multiset(s)
    ensures forall x, y :: x in Take(s, n) && y in multiset(s) - multiset(Take(s, n)) ==>
      LastWatched(y) <= LastWatched(x)
  {
    if n < |s| {
      PrefixNewest(s, n);
    } else {
      assert multiset(s) - multiset(Take(s, n)) == multiset{};
    }
  }

  lemma PrefixNewest(s: seq<ProgressRow>, n: nat)
    requires SortedDesc(s, LastWatched) && n < |s|
    ensures SortedDesc(s[..n], LastWatched) && multiset(s[..n]) <= multiset(s)
    ensures forall x, y :: x in s[..n] && y in multiset(s) - multiset(s[..n]) ==>
      LastWatched(y) <= LastWatched(x)
  {
    assert s == s[..n] + s[n..];
    assert multiset(s) - multiset(s[..n]) == multiset(s[n..]);
    SplitNewest(s[..n], s[n..]);
  }

  /** In a list sorted newest first, a row of the front part was watched no
      earlier than a row of the back part. */
  lemma SplitNewest(a: seq<ProgressRow>, b: seq<ProgressRow>)
    requires SortedDesc(a + b, LastWatched)
    ensures forall x, y :: x in a && y in b ==> LastWatched(y) <= LastWatched(x)
  {
    forall x, y | x in a && y in b ensures LastWatched(y) <= LastWatched(x) {
      var i :| 0 <= i < |a| && a[i] == x;
      var j :| 0 <= j < |b| && b[j] == y;
      assert (a + b)[i] == x && (a + b)[|a| + j] == y;
    }
  }

  /** `getUserStats`: `None` without a user or when either query fails; the
      tables are given whole and the user's rows are read from them. */
  function UserStats(user: Option<string>, progress: Option<seq<ProgressRow>>,
                     favorites: Option<seq<FavoriteRow>>): (r: Option<Stats>)
    ensures r.Some? <==> user.Some? && progress.Some? && favorites.Some?
    ensures r.Some? ==>
      var mine := Filter(progress.value, (p: ProgressRow) => p.userId == user.value);
      r.value.totalCourses == |mine| &&
      r.value.completedCourses == |Filter(mine, (p: ProgressRow) => p.isCompleted)| &&
      r.value.activeCourses == |Filter(mine, (p: ProgressRow) => !p.isCompleted && p.percentage > 0)| &&
      r.value.completedCourses + r.value.activeCourses <= r.value.totalCourses &&
      r.value.totalWatchTime == WatchTime(mine)
    ensures r.Some? ==>
      var mine := Filter(progress.value, (p: ProgressRow) => p.userId == user.value);
      |r.value.recentProgress| == (if |mine| < ListedCount then |mine| else ListedCount) &&
      SortedDesc(r.value.recentProgress, LastWatched) &&
      multiset(r.value.recentProgress) <= multiset(mine) &&
      forall x, y :: x in r.value.recentProgress && y in multiset(mine) - multiset(r.value.recentProgress) ==>
        y.lastWatchedAt <= x.lastWatchedAt
    ensures r.Some? ==>
      var favs := Filter(favorites.value, (f: FavoriteRow) => f.userId == user.value);
      r.value.favorites == |favs| && r.value.favoritesList == Take(favs, ListedCount)
  {
    if user.None? || progress.None? || favorites.None? then None
    else
      var mine := Filter(progress.value, (p: ProgressRow) => p.userId == user.value);
      var favs := Filter(favorites.value, (f: FavoriteRow) => f.userId == user.value);
      CountsBounded(mine);
      var sorted := SortDesc(mine, LastWatched);
      TakeSorted(sorted, ListedCount);
      Some(Stats(|mine|, CountStarted(mine), CountCompleted(mine), WatchTime(mine), |favs|,
                 Take(sorted, ListedCount), Take(favs, ListedCount)))
  }

  /** The row an upsert matches on: `onConflict: 'user_id,course_id'`. */
  predicate SamePair(p: ProgressRow, user: string, course: string) {
    p.userId == user && p.courseId == course
  }

  /** At most one progress row per (user, course) pair. */
  predicate UniquePairs(rows: seq<ProgressRow>) {
    forall i, j :: 0 <= i < j < |rows| ==> !SamePair(rows[j], rows[i].userId, rows[i].courseId)
  }

  /** The index of the pair's row, or `|rows|` when it has none. */
  function PairIndex(rows: seq<ProgressRow>, user: string, course: string): (i: nat)
    ensures i <= |rows|
    ensures i < |rows| ==> SamePair(rows[i], user, course)
    ensures forall j :: 0 <= j < i ==> !SamePair(rows[j], user, course)
  {
    if rows == [] then 0
    else if SamePair(rows[0], user, course) then 0
    else 1 + PairIndex(rows[1..], user, course)
  }

  /** The pair's row, if it has one. */
  function Lookup(rows: seq<ProgressRow>, user: string, course: string): (r: Option<ProgressRow>)
    ensures r.Some? <==> exists k :: 0 <= k < |rows| && SamePair(rows[k], user, course)
    ensures r.Some? ==> r.value in rows && SamePair(r.value, user, course)
  {
    var i := PairIndex(rows, user, course);
    if i < |rows| then Some(rows[i]) else None
  }

  /** The columns an upsert writes; an absent column is not written. */
  datatype Payload = Payload(
    percentage: int,
    lastWatchedAt: int,
    isCompleted: Option<bool>,
    completedAt: Option<int>,
    watchMinutes: Option<nat>)

  /** The object `updateProgress` writes at time `now`: completion, the
      clamped percentage, the completion time only once completed, and the
      watch time only when it is given and not 0. */
  function ProgressPayload(percentage: int, watchMinutes: Option<nat>, now: int): (p: Payload)
    ensures p.isCompleted == Some(percentage >= CompleteAt)
    ensures p.percentage <= CompleteAt && (percentage <= CompleteAt ==> p.percentage == percentage)
    ensures p.completedAt.Some? <==> percentage >= CompleteAt
    ensures p.watchMinutes.Some? <==> watchMinutes.Some? && watchMinutes.value != 0
    ensures p.watchMinutes.Some? ==> p.watchMinutes == watchMinutes
    ensures p.lastWatchedAt == now
  {
    var completed := percentage >= CompleteAt;
    Payload(if percentage < CompleteAt then percentage else CompleteAt, now, Some(completed),
            if completed then Some(now) else None,
            if watchMinutes.Some? && watchMinutes.value != 0 then watchMinutes else None)
  }

  /** The object `startCourse` writes: percentage 0 and the time. */
  function StartPayload(now: int): (p: Payload)
    ensures p.percentage == 0 && p.lastWatchedAt == now
    ensures p.isCompleted.None? && p.completedAt.None? && p.watchMinutes.None?
  {
    Payload(0, now, None, None, None)
  }

  /** The row an upsert leaves: written columns take the payload's value, the
      others keep the existing row's value or, for a new row, the column
      default (not completed, no completion time, 0 minutes). */
  function Apply(prev: Option<ProgressRow>, user: string, course: string, p: Payload): (r: ProgressRow)
    ensures SamePair(r, user, course)
    ensures r.percentage == p.percentage && r.lastWatchedAt == p.lastWatchedAt
    ensures r.isCompleted == p.isCompleted.GetOr(prev.Some? && prev.value.isCompleted)
    ensures p.completedAt.Some? ==> r.completedAt == p.completedAt
    ensures p.completedAt.None? ==> r.completedAt == (if prev.Some? then prev.value.completedAt else None)
    ensures r.watchMinutes == p.watchMinutes.GetOr(if prev.Some? then prev.value.watchMinutes else 0)
  {
    ProgressRow(user, course, p.percentage,
                p.isCompleted.GetOr(prev.Some? && prev.value.isCompleted),
                if p.completedAt.Some? then p.completedAt else if prev.Some? then prev.value.completedAt else None,
                p.lastWatchedAt,
                p.watchMinutes.GetOr(if prev.Some? then prev.value.watchMinutes else 0))
  }

  /** The table after upserting `row`: it replaces the row of its pair, or is
      added when the pair has none. */
  function Upsert(rows: seq<ProgressRow>, row: ProgressRow): (r: seq<ProgressRow>)
    ensures UniquePairs(rows) ==> UniquePairs(r)
    ensures Lookup(r, row.userId, row.courseId) == Some(row)
    ensures |r| == |rows| + (if Lookup(rows, row.userId, row.courseId).Some? then 0 else 1)
  {
    var i := PairIndex(rows, row.userId, row.courseId);
    if i < |rows| then
      var r := rows[i := row];
      assert PairIndex(r, row.userId, row.courseId) == i by { PairIndexAt(r, row.userId, row.courseId, i); }
      r
    else
      var r := rows + [row];
      assert PairIndex(r, row.userId, row.courseId) == i by { PairIndexAt(r, row.userId, row.courseId, i); }
      r
  }

  lemma {:induction false} PairIndexAt(b: seq<ProgressRow>, user: string, course: string, i: nat)
    requires i < |b| && SamePair(b[i], user, course)
    requires forall j :: 0 <= j < i ==> !SamePair(b[j], user, course)
    ensures PairIndex(b, user, course) == i
  {
    if i > 0 {
      PairIndexAt(b[1..], user, course, i - 1);
    }
  }

  /** An upsert leaves the row of every other pair as it was. */
  lemma UpsertKeepsOthers(rows: seq<ProgressRow>, row: ProgressRow, user: string, course: string)
    requires UniquePairs(rows)
    requires !SamePair(row, user, course)
    ensures Lookup(Upsert(rows, row), user, course) == Lookup(rows, user, course)
  {
    var r := Upsert(rows, row);
    var i := PairIndex(rows, user, course);
    if i < |rows| {
      assert r[i] == rows[i];
      PairIndexAt(r, user, course, i);
    } else {
      assert forall k :: 0 <= k < |r| ==> !SamePair(r[k], user, course) by {
        forall k | 0 <= k < |r| ensures !SamePair(r[k], user, course) {
          if k < |rows| && r[k] != row {
            assert r[k] == rows[k];
          }
        }
      }
    }
  }

  /** Saving progress completes the course exactly at 100 or more, stores at
      most 100, and records a completion time only then. */
  lemma SavedProgress(rows: seq<ProgressRow>, user: string, course: string, percentage: int,
                      watchMinutes: Option<nat>, now: int)
    ensures var row := Apply(Lookup(rows, user, course), user, course, ProgressPayload(percentage, watchMinutes, now));
      (row.isCompleted <==> percentage >= CompleteAt) && row.percentage <= CompleteAt &&
      (row.isCompleted ==> row.completedAt == Some(now))
  {
  }

  /** Starting a course already completed sets its percentage to 0 but keeps
      it completed, since `startCourse` does not write `is_completed`. */
  lemma RestartKeepsCompletion(rows: seq<ProgressRow>, user: string, course: string, now: int)
    requires Lookup(rows, user, course).Some? && Lookup(rows, user, course).value.isCompleted
    ensures var row := Apply(Lookup(rows, user, course), user, course, StartPayload(now));
      row.percentage == 0 && row.isCompleted
  {
  }

  /** The favourites after `toggleFavorite`: the pair's row is deleted when it
      exists and added otherwise. */
  function Toggled(favs: seq<FavoriteRow>, fav: FavoriteRow): (r: seq<FavoriteRow>)
    ensures fav in favs <==> fav !in r
    ensures forall f :: f != fav ==> (f in r <==> f in favs)
    ensures NoDups(favs) ==> NoDups(r)
  {
    if fav in favs then
      var r := Filter(favs, (f: FavoriteRow) => f != fav);
      assert NoDups(favs) ==> NoDups(r) by {
        if NoDups(favs) {
          FilterNoDups(favs, (f: FavoriteRow) => f != fav);
        }
      }
      r
    else
      assert forall i :: 0 <= i < |favs| ==> (favs + [fav])[i] == favs[i];
      favs + [fav]
  }

  /** Toggling twice restores the favourites; when the pair was not a
      favourite, the list is exactly as before. */
  lemma ToggleTwice(favs: seq<FavoriteRow>, fav: FavoriteRow)
    ensures forall f :: f in Toggled(Toggled(favs, fav), fav) <==> f in favs
    ensures fav !in favs ==> Toggled(Toggled(favs, fav), fav) == favs
  {
    if fav !in favs {
      RemoveAppended(favs, fav);
    }
  }

  lemma {:induction false} RemoveAppended(favs: seq<FavoriteRow>, fav: FavoriteRow)
    requires fav !in favs
    ensures Filter(favs + [fav], (f: FavoriteRow) => f != fav) == favs
  {
    FilterAppend(favs, [fav], (f: FavoriteRow) => f != fav);
    FilterAll(favs, (f: FavoriteRow) => f != fav);
  }

  /** The hook over the two tables it writes. */
  class ProgressStore {
    var progress: seq<ProgressRow>
    var favorites: seq<FavoriteRow>
    var loading: bool

    /** The tables' keys: one progress row and one favourite per pair. */
    predicate Valid()
      reads this
    {
      UniquePairs(progress) && NoDups(favorites)
    }

    constructor (progress0: seq<ProgressRow>, favorites0: seq<FavoriteRow>)
      requires UniquePairs(progress0) && NoDups(favorites0)
      ensures Valid()
      ensures progress == progress0 && favorites == favorites0 && !loading
    {
      progress := progress0;
      favorites := favorites0;
      loading := false;
    }

    /** `updateProgress(courseId, percentage, watchMinutes)` at time `now`;
        `failed` is the upsert's error. It returns whether the completion
        message is shown. */
    method UpdateProgress(user: Option<string>, courseId: string, percentage: int,
                          watchMinutes: Option<nat>, now: int, failed: bool)
      returns (congratulated: bool)
      requires Valid()
      modifies this
      ensures Valid()
      ensures user.None? ==> progress == old(progress) && favorites == old(favorites) && loading == old(loading)
      ensures user.Some? ==> (!loading && favorites == old(favorites) &&
        progress == (if failed then old(progress)
                     else Upsert(old(progress), Apply(Lookup(old(progress), user.value, courseId),
                                                      user.value, courseId,
                                                      ProgressPayload(percentage, watchMinutes, now)))))
      ensures congratulated <==> user.Some? && !failed && percentage >= CompleteAt
    {
      if user.None? {
        return false;
      }
      loading := true;
      var updates := ProgressPayload(percentage, watchMinutes, now);
      congratulated := false;
      if !failed {
        progress := Upsert(progress, Apply(Lookup(progress, user.value, courseId), user.value, courseId, updates));
        congratulated := percentage >= CompleteAt;
      }
      loading := false;
    }

    /** `startCourse(courseId)` at time `now`; `failed` is the upsert's error. */
    method StartCourse(user: Option<string>, courseId: string, now: int, failed: bool)
      requires Valid()
      modifies this
      ensures Valid()
      ensures user.None? ==> progress == old(progress) && favorites == old(favorites) && loading == old(loading)
      ensures user.Some? ==> (!loading && favorites == old(favorites) &&
        progress == (if failed then old(progress)
                     else Upsert(old(progress), Apply(Lookup(old(progress), user.value, courseId),
                                                      user.value, courseId, StartPayload(now)))))
    {
      if user.None? {
        return;
      }
      loading := true;
      if !failed {
        progress := Upsert(progress, Apply(Lookup(progress, user.value, courseId), user.value, courseId, StartPayload(now)));
      }
      loading := false;
    }

    /** `toggleFavorite(courseId)`; `failed` is the delete's or the insert's
        error. */
    method ToggleFavorite(user: Option<string>, courseId: string, failed: bool)
      requires Valid()
      modifies this
      ensures Valid()
      ensures user.None? ==> progress == old(progress) && favorites == old(favorites) && loading == old(loading)
      ensures user.Some? ==> (!loading && progress == old(progress) &&
        favorites == (if failed then old(favorites)
                      else Toggled(old(favorites), FavoriteRow(user.value, courseId))))
    {
      if user.None? {
        return;
      }
      loading := true;
      var fav := FavoriteRow(user.value, courseId);
      var existing := fav in favorites;
      if !failed {
        if existing {
          favorites := Filter(favorites, (f: FavoriteRow) => f != fav);
        } else {
          favorites := favorites + [fav];
        }
        assert favorites == Toggled(old(favorites), fav);
      }
      loading := false;
    }
  }
}
