/** The `useGeminiSuggestions` hook: it asks the `ai` function to rank courses
    for the signed-in user and keeps the ranked courses that exist, or the
    first three courses when the answer cannot be used. */
module GeminiSuggestionsHook {
  import opened Wrappers
  import opened Seqs
  import opened Tables
  import SemanticSearch

  /** The fallback shows this many courses. */
  const FallbackCount: nat := 3

  /** A suggested course, with the model's reason when there is one. */
  datatype Suggestion = Suggestion(course: Course, reason: Option<string>)

  /** One recommendation of the model's JSON array. */
  datatype Recommendation = Recommendation(id: string, reason: Option<string>)

  /** The result of `functions.invoke('ai', ...)`: an error, or data whose
      `response` field may be missing. */
  datatype Invocation = InvokeError | Data(response: Option<string>)

  /** The context sent to the model: the joined courses of the completed and
      of the unfinished progress rows and of the favourites, and the minutes watched. */
  datatype UserContext = UserContext(
    completedCourses: seq<Option<Course>>,
    inProgressCourses: seq<Option<Course>>,
    favoriteCourses: seq<Option<Course>>,
    totalWatchTime: nat)

  function Joined(ids: seq<string>, catalog: seq<Course>): (r: seq<Option<Course>>)
    ensures |r| == |ids| && forall k :: 0 <= k < |r| ==> r[k] == Find(catalog, ids[k])
  {
    seq(|ids|, k requires 0 <= k < |ids| => Find(catalog, ids[k]))
  }

  function CourseIds(rows: seq<ProgressRow>): (r: seq<string>)
    ensures |r| == |rows| && forall k :: 0 <= k < |r| ==> r[k] == rows[k].courseId
  {
    seq(|rows|, k requires 0 <= k < |rows| => rows[k].courseId)
  }

  function FavoriteIds(rows: seq<FavoriteRow>): (r: seq<string>)
    ensures |r| == |rows| && forall k :: 0 <= k < |r| ==> r[k] == rows[k].courseId
  {
    seq(|rows|, k requires 0 <= k < |rows| => rows[k].courseId)
  }

  /** The context of `userId`, position by position: the course of each
      completed row, the course of each unfinished row (whatever its
      percentage) and the course of each favourite, in row order, as the
      embedded `courses(...)` selects join them from `catalog`. */
  function ContextOf(userId: string, progress: seq<ProgressRow>, favorites: seq<FavoriteRow>,
                     catalog: seq<Course>): (c: UserContext)
    ensures var mine := Filter(progress, (p: ProgressRow) => p.userId == userId);
      |c.completedCourses| + |c.inProgressCourses| == |mine| && c.totalWatchTime == WatchTime(mine)
    ensures var done := Filter(Filter(progress, (p: ProgressRow) => p.userId == userId), (p: ProgressRow) => p.isCompleted);
      |c.completedCourses| == |done| &&
      forall k :: 0 <= k < |done| ==> c.completedCourses[k] == Find(catalog, done[k].courseId)
    ensures var open := Filter(Filter(progress, (p: ProgressRow) => p.userId == userId), (p: ProgressRow) => !p.isCompleted);
      |c.inProgressCourses| == |open| &&
      forall k :: 0 <= k < |open| ==> c.inProgressCourses[k] == Find(catalog, open[k].courseId)
    ensures var favs := Filter(favorites, (f: FavoriteRow) => f.userId == userId);
      |c.favoriteCourses| == |favs| &&
      forall k :: 0 <= k < |favs| ==> c.favoriteCourses[k] == Find(catalog, favs[k].courseId)
  {
    var mine := Filter(progress, (p: ProgressRow) => p.userId == userId);
    var done := Filter(mine, (p: ProgressRow) => p.isCompleted);
    var open := Filter(mine, (p: ProgressRow) => !p.isCompleted);
    SplitCount(mine);
    var favs := Filter(favorites, (f: FavoriteRow) => f.userId == userId);
    UserContext(Joined(CourseIds(done), catalog), Joined(CourseIds(open), catalog),
                Joined(FavoriteIds(favs), catalog), WatchTime(mine))
  }

  lemma {:induction false} SplitCount(rows: seq<ProgressRow>)
    ensures |Filter(rows, (p: ProgressRow) => p.isCompleted)| + |Filter(rows, (p: ProgressRow) => !p.isCompleted)| == |rows|
  {
    if rows != [] {
      SplitCount(rows[1..]);
      assert rows == [rows[0]] + rows[1..];
    }
  }

  /** `allCourses?.slice(0, 3) || []`, without reasons. */
  function FirstCourses(courses: Option<seq<Course>>): (r: seq<Suggestion>)
    ensures var all := courses.GetOr([]);
      |r| == (if |all| < FallbackCount then |all| else FallbackCount) &&
      forall k :: 0 <= k < |r| ==> r[k] == Suggestion(all[k], None)
    ensures forall s :: s in r ==> s.course in courses.GetOr([]) && s.reason.None?
  {
    var picked := Take(courses.GetOr([]), FallbackCount);
    var r := seq(|picked|, k requires 0 <= k < |picked| => Suggestion(picked[k], None));
    assert forall s :: s in r ==> s.course in picked;
    r
  }

  /** Each recommendation whose id names a course becomes that course with the
      recommendation's reason; the others are dropped. */
  function Enhance(recs: seq<Recommendation>, catalog: seq<Course>): (r: seq<Suggestion>)
    ensures |r| <= |recs|
    ensures forall s :: s in r ==> s.course in catalog
  {
    if recs == [] then []
    else
      var head := match Find(catalog, recs[0].id)
        case Some(c) => [Suggestion(c, recs[0].reason)]
        case None => [];
      head + Enhance(recs[1..], catalog)
  }

  predicate Known(catalog: seq<Course>, rec: Recommendation) {
    Find(catalog, rec.id).Some?
  }

  /** Position by position, `r` holds the course and the reason of each of
      the recommendations `known`. */
  predicate SuggestsEach(r: seq<Suggestion>, known: seq<Recommendation>, catalog: seq<Course>) {
    |r| == |known| &&
    forall k :: 0 <= k < |r| ==>
      Some(r[k].course) == Find(catalog, known[k].id) && r[k].reason == known[k].reason
  }

  lemma SuggestsCons(s: Suggestion, rec: Recommendation, r: seq<Suggestion>, rest: seq<Recommendation>,
                     catalog: seq<Course>)
    requires SuggestsEach(r, rest, catalog)
    requires Some(s.course) == Find(catalog, rec.id) && s.reason == rec.reason
    ensures SuggestsEach([s] + r, [rec] + rest, catalog)
  {
    var all, known := [s] + r, [rec] + rest;
    forall k | 0 <= k < |all|
      ensures Some(all[k].course) == Find(catalog, known[k].id) && all[k].reason == known[k].reason
    {
      if k > 0 {
        assert all[k] == r[k - 1] && known[k] == rest[k - 1];
      }
    }
  }

  /** Position by position, the suggestions are the known recommendations, in
      order, each with its course and its reason. */
  lemma {:induction false} EnhanceKnown(recs: seq<Recommendation>, catalog: seq<Course>)
    ensures SuggestsEach(Enhance(recs, catalog), Filter(recs, (rec: Recommendation) => Known(catalog, rec)), catalog)
  {
    if recs != [] {
      EnhanceKnown(recs[1..], catalog);
      var rest := Filter(recs[1..], (rec: Recommendation) => Known(catalog, rec));
      var r := Enhance(recs[1..], catalog);
      if Known(catalog, recs[0]) {
        var c := Find(catalog, recs[0].id).value;
        assert Enhance(recs, catalog) == [Suggestion(c, recs[0].reason)] + r;
        SuggestsCons(Suggestion(c, recs[0].reason), recs[0], r, rest, catalog);
      } else {
        assert Enhance(recs, catalog) == r;
      }
    }
  }

  /** The recommendations read from an answer: none for an invocation error
      or an answer that does not parse as an array. `parse` is what
      `JSON.parse`, followed by the check that its value is an array, makes of
      a text (`None` for either failure); it is not consulted for an empty
      cleaned response, on which `JSON.parse` always fails. */
  function Recommendations(outcome: Invocation, parse: string -> Option<seq<Recommendation>>)
    : (r: Option<seq<Recommendation>>)
    ensures outcome.InvokeError? ==> r.None?
    ensures r.Some? ==> var text := SemanticSearch.CleanReply(outcome.response.GetOr([]));
      text != [] && r == parse(text)
  {
    match outcome
    case InvokeError => None
    case Data(response) =>
      var text := SemanticSearch.CleanReply(response.GetOr([]));
      if text == [] then None else parse(text)
  }

  /** The suggestions a started fetch ends with: the known recommended courses,
      or the first three courses when there are no recommendations. */
  function Fetched(courses: Option<seq<Course>>, outcome: Invocation,
                   parse: string -> Option<seq<Recommendation>>): (r: seq<Suggestion>)
    ensures outcome.InvokeError? ==> r == FirstCourses(courses)
    ensures forall s :: s in r ==> s.course in courses.GetOr([])
  {
    match Recommendations(outcome, parse)
    case None => FirstCourses(courses)
    case Some(list) => Enhance(list, courses.GetOr([]))
  }

  /** An unusable answer (an invocation error, a missing or empty response, a
      response that is not an array) shows the first three courses. */
  lemma UnusableAnswer(courses: Option<seq<Course>>, outcome: Invocation,
                       parse: string -> Option<seq<Recommendation>>)
    requires outcome.InvokeError? || outcome.response.None? ||
             SemanticSearch.CleanReply(outcome.response.value) == [] ||
             parse(SemanticSearch.CleanReply(outcome.response.value)).None?
    ensures Fetched(courses, outcome, parse) == FirstCourses(courses)
  {
    assert Recommendations(outcome, parse).None?;
  }

  /** A non-empty cleaned response that parses as an array shows the
      recommended courses that exist (see `EnhanceKnown`). */
  lemma ParsedAnswer(courses: Option<seq<Course>>, response: string,
                     parse: string -> Option<seq<Recommendation>>)
    requires SemanticSearch.CleanReply(response) != []
    requires parse(SemanticSearch.CleanReply(response)).Some?
    ensures Fetched(courses, Data(Some(response)), parse)
         == Enhance(parse(SemanticSearch.CleanReply(response)).value, courses.GetOr([]))
  {
  }

  /** The hook's state. */
  class Hook {
    var suggestions: seq<Suggestion>
    var loading: bool

    constructor ()
      ensures suggestions == [] && !loading
    {
      suggestions := [];
      loading := false;
    }

    /** `hasSuggestions`. */
    function HasSuggestions(): (r: bool)
      reads this
      ensures r <==> suggestions != []
    {
      |suggestions| > 0
    }

    /** `fetchSuggestions()` for the signed-in `user`: `catalog` is the
        courses table the embedded `courses(...)` selects join, `courses` what
        the `allCourses` select returns. `context` is the user context sent to
        the model, absent when the fetch did not start. */
    method FetchSuggestions(user: Option<string>, progress: Option<seq<ProgressRow>>,
                            favorites: Option<seq<FavoriteRow>>, catalog: seq<Course>,
                            courses: Option<seq<Course>>, outcome: Invocation,
                            parse: string -> Option<seq<Recommendation>>)
      returns (context: Option<UserContext>)
      modifies this
      ensures user.None? ==> context.None? && suggestions == old(suggestions) && loading == old(loading)
      ensures user.Some? ==> !loading
      ensures user.Some? ==> suggestions == Fetched(courses, outcome, parse)
      ensures user.Some? ==>
        context == Some(ContextOf(user.value, progress.GetOr([]), favorites.GetOr([]), catalog))
    {
      if user.None? {
        return None;
      }
      loading := true;
      var next := Fetched(courses, outcome, parse);
      context := Some(ContextOf(user.value, progress.GetOr([]), favorites.GetOr([]), catalog));
      loading := false;
      suggestions := next;
    }
  }
}
