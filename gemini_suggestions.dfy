/** The `gemini-suggestions` edge function: it profiles a user from their
    progress and favourites, asks the Gemini model for course suggestions and
    joins each suggestion back to its course. */
module GeminiSuggestions {
  import opened Wrappers
  import opened Seqs
  import opened Tables

  /** How many courses the random fallback suggests. */
  const FallbackCount: nat := 4
  const FallbackReason: string := "Recomendado para você"
  /** More completed courses than this make the preferred level intermediate. */
  const IntermediateAfter: nat := 3

  /** The profile sent to the model. */
  datatype Profile = Profile(
    completedCourses: nat,
    inProgressCourses: nat,
    favoriteCategories: seq<string>,
    preferredLevel: string)

  /** One suggestion as the model (or the fallback) states it. */
  datatype Suggestion = Suggestion(courseId: string, reason: Option<string>)

  /** An entry of the reply: the spread course (absent when no course has the
      id) with the suggestion's reason. */
  datatype Entry = Entry(course: Option<Course>, reason: Option<string>)

  /** Why the handler answers 500; `Runtime` stands for an exception the
      JavaScript engine raises, whose message the model does not fix. */
  datatype Error = MissingEnvironment | MissingUserId | InvalidReply | Runtime

  datatype Response = Failure(error: Error) | Suggested(entries: seq<Entry>)

  /** The JSON body of Gemini's HTTP reply: unreadable, or the optional text of
      the first part of the first candidate. */
  datatype GeminiReply = Unreadable | Body(text: Option<string>)

  /** What `JSON.parse` makes of the extracted block: a syntax error, or an
      object whose `suggestions` field is an array (`Some`) or is not (`None`). */
  datatype Parsed = SyntaxError | Object(suggestions: Option<seq<Suggestion>>)

  /** The environment variables the handler needs. */
  datatype Env = Env(geminiKey: Option<string>, url: Option<string>, serviceKey: Option<string>)

  predicate Truthy(s: Option<string>) {
    s.Some? && s.value != []
  }

  function Message(e: Error): Option<string> {
    match e
    case MissingEnvironment => Some("Missing required environment variables")
    case MissingUserId => Some("User ID is required")
    case InvalidReply => Some("Invalid Gemini API response")
    case Runtime => None
  }

  /** `favorites.map(f => find(...)?.category).filter(Boolean)`: position by
      position, the categories of the favourites whose course has one, in
      favourite order and with repeats kept. */
  function FavoriteCategories(favorites: seq<FavoriteRow>, catalog: seq<Course>): (r: seq<string>)
    ensures var known := Filter(favorites, (f: FavoriteRow) => CategoryOf(catalog, f.courseId).Some?);
      |r| == |known| && forall k :: 0 <= k < |r| ==> Some(r[k]) == CategoryOf(catalog, known[k].courseId)
    ensures forall x :: x in r ==> x != [] && exists c :: c in catalog && c.category == Some(x)
  {
    if favorites == [] then []
    else
      var rest := FavoriteCategories(favorites[1..], catalog);
      match CategoryOf(catalog, favorites[0].courseId)
      case Some(x) => [x] + rest
      case None => rest
  }

  /** The categories of two lists of favourites, one after the other, are
      those of the joined list. */
  lemma {:induction false} FavoriteCategoriesOrder(a: seq<FavoriteRow>, b: seq<FavoriteRow>, catalog: seq<Course>)
    ensures FavoriteCategories(a + b, catalog) == FavoriteCategories(a, catalog) + FavoriteCategories(b, catalog)
  {
    if a == [] {
      assert a + b == b;
    } else {
      assert (a + b)[0] == a[0] && (a + b)[1..] == a[1..] + b;
      FavoriteCategoriesOrder(a[1..], b, catalog);
    }
  }

  function LevelFor(completed: nat): (level: string)
    ensures level == "intermediário" <==> completed > IntermediateAfter
    ensures level == "iniciante" <==> completed <= IntermediateAfter
  {
    if completed > IntermediateAfter then "intermediário" else "iniciante"
  }

  /** The profile of `userId`, read from the whole progress and favourites tables. */
  function ProfileOf(userId: string, progress: seq<ProgressRow>, favorites: seq<FavoriteRow>,
                     catalog: seq<Course>): (p: Profile)
    ensures var mine := Filter(progress, (r: ProgressRow) => r.userId == userId);
      p.completedCourses + p.inProgressCourses <= |mine| &&
      p.completedCourses == |Filter(mine, (r: ProgressRow) => r.isCompleted)| &&
      p.inProgressCourses == |Filter(mine, (r: ProgressRow) => !r.isCompleted && r.percentage > 0)|
    ensures p.favoriteCategories == FavoriteCategories(Filter(favorites, (f: FavoriteRow) => f.userId == userId), catalog)
    ensures (p.preferredLevel == "intermediário") == (p.completedCourses > IntermediateAfter)
  {
    var mine := Filter(progress, (r: ProgressRow) => r.userId == userId);
    var favs := Filter(favorites, (f: FavoriteRow) => f.userId == userId);
    CountsBounded(mine);
    var done := CountCompleted(mine);
    Profile(done, CountStarted(mine), FavoriteCategories(favs, catalog), LevelFor(done))
  }

  /** Index of the first `c` in `s`. */
  function IndexOf(s: string, c: char): (r: Option<nat>)
    ensures r.Some? ==> r.value < |s| && s[r.value] == c && c !in s[..r.value]
    ensures r.None? ==> c !in s
  {
    if s == [] then None
    else if s[0] == c then Some(0)
    else
      var r := IndexOf(s[1..], c);
      assert s == [s[0]] + s[1..];
      match r
      case Some(i) =>
        assert s[..i + 1] == [s[0]] + s[1..][..i];
        Some(i + 1)
      case None => None
  }

  /** Index of the last `c` in `s`. */
  function LastIndexOf(s: string, c: char): (r: Option<nat>)
    ensures r.Some? ==> r.value < |s| && s[r.value] == c && c !in s[r.value + 1..]
    ensures r.None? ==> c !in s
  {
    if s == [] then None
    else if s[|s| - 1] == c then Some(|s| - 1)
    else
      var r := LastIndexOf(s[..|s| - 1], c);
      assert s == s[..|s| - 1] + [s[|s| - 1]];
      match r
      case Some(i) =>
        assert s[i + 1..] == s[..|s| - 1][i + 1..] + [s[|s| - 1]];
        Some(i)
      case None => None
  }

  /** Where `/\{[\s\S]*\}/` matches: from the first '{' to the last '}', when that
      one comes after it. */
  function BlockBounds(text: string): (r: Option<(nat, nat)>)
    ensures r.Some? ==> var (i, j) := r.value;
      i < j < |text| && text[i] == '{' && text[j] == '}' &&
      '{' !in text[..i] && '}' !in text[j + 1..]
    ensures r.None? <==> forall i, j :: 0 <= i < j < |text| && text[i] == '{' ==> text[j] != '}'
  {
    match (IndexOf(text, '{'), LastIndexOf(text, '}'))
    case (Some(i), Some(j)) =>
      if i < j then Some((i, j))
      else
        assert forall a :: 0 <= a < i ==> text[a] != '{' by {
          forall a | 0 <= a < i ensures text[a] != '{' { assert text[a] == text[..i][a]; }
        }
        assert forall b :: j < b < |text| ==> text[b] != '}' by {
          forall b | j < b < |text| ensures text[b] != '}' { assert text[b] == text[j + 1..][b - j - 1]; }
        }
        None
    case (None, _) =>
      assert forall a :: 0 <= a < |text| ==> text[a] != '{';
      None
    case (_, None) =>
      assert forall b :: 0 <= b < |text| ==> text[b] != '}';
      None
  }

  /** `text.match(/\{[\s\S]*\}/)?.[0]`: the text from the first '{' to the last '}'. */
  function ExtractJsonBlock(text: string): (r: Option<string>)
    ensures r.Some? ==> |r.value| >= 2 && r.value[0] == '{' && r.value[|r.value| - 1] == '}'
    ensures r.Some? ==>
      exists i, j {:trigger text[i], text[j]} :: 0 <= i < j < |text| &&
        text[i] == '{' && text[j] == '}' && '{' !in text[..i] && '}' !in text[j + 1..] &&
        r.value == text[i..j + 1]
    ensures r.None? <==> forall i, j :: 0 <= i < j < |text| && text[i] == '{' ==> text[j] != '}'
  {
    match BlockBounds(text)
    case Some((i, j)) => Some(text[i..j + 1])
    case None => None
  }

  /** The fallback suggestions: the first four shuffled courses with a fixed reason. */
  function RandomSuggestions(shuffled: seq<Course>): (r: seq<Suggestion>)
    ensures |r| == if |shuffled| < FallbackCount then |shuffled| else FallbackCount
    ensures forall k :: 0 <= k < |r| ==> r[k] == Suggestion(shuffled[k].id, Some(FallbackReason))
  {
    var picked := Take(shuffled, FallbackCount);
    seq(|picked|, k requires 0 <= k < |picked| => Suggestion(picked[k].id, Some(FallbackReason)))
  }

  function Ids(suggestions: seq<Suggestion>): (r: seq<string>)
    ensures |r| == |suggestions| && forall k :: 0 <= k < |r| ==> r[k] == suggestions[k].courseId
  {
    seq(|suggestions|, k requires 0 <= k < |suggestions| => suggestions[k].courseId)
  }

  /** `.in('id', ids)`: the courses whose id is listed. */
  function Selected(catalog: seq<Course>, ids: seq<string>): seq<Course> {
    Filter(catalog, (c: Course) => c.id in ids)
  }

  /** Looking a listed id up among the selected courses is looking it up in the whole table. */
  lemma {:induction false} FindSelected(catalog: seq<Course>, ids: seq<string>, id: string)
    requires id in ids
    ensures Find(Selected(catalog, ids), id) == Find(catalog, id)
  {
    if catalog != [] {
      FindSelected(catalog[1..], ids, id);
      assert catalog == [catalog[0]] + catalog[1..];
    }
  }

  /** `{ ...course, reason }` for each suggestion; unmatched ones keep only the reason. */
  function Combine(suggestions: seq<Suggestion>, selected: seq<Course>): (r: seq<Entry>)
    ensures |r| == |suggestions|
    ensures forall k :: 0 <= k < |r| ==> r[k].reason == suggestions[k].reason
  {
    seq(|suggestions|, k requires 0 <= k < |suggestions| =>
      Entry(Find(selected, suggestions[k].courseId), suggestions[k].reason))
  }

  /** The handler. `courses` is the `courses` table (`None` when it could not be
      read), `shuffle` the random reordering, `parse` the JSON parser. */
  function Handle(env: Env, userId: Option<string>, courses: Option<seq<Course>>,
                  reply: GeminiReply, parse: string -> Parsed,
                  shuffle: seq<Course> -> seq<Course>): (r: Response)
    ensures r == Failure(MissingEnvironment) <==>
      !Truthy(env.geminiKey) || !Truthy(env.url) || !Truthy(env.serviceKey)
    ensures r == Failure(MissingUserId) <==>
      (Truthy(env.geminiKey) && Truthy(env.url) && Truthy(env.serviceKey) && !Truthy(userId))
  {
    if !Truthy(env.geminiKey) || !Truthy(env.url) || !Truthy(env.serviceKey) then
      Failure(MissingEnvironment)
    else if !Truthy(userId) then Failure(MissingUserId)
    else
      var all := courses.GetOr([]);
      match reply
      case Unreadable => Failure(Runtime)
      case Body(text) =>
        if !Truthy(text) then Failure(InvalidReply)
        else
          var suggestions: Option<seq<Suggestion>> :=
            match ExtractJsonBlock(text.value)
            case None => Some(RandomSuggestions(shuffle(all)))
            case Some(block) =>
              match parse(block)
              case SyntaxError => Some(RandomSuggestions(shuffle(all)))
              case Object(list) => list;
          match suggestions
          case None => Failure(Runtime)
          case Some(list) => Suggested(Combine(list, Selected(all, Ids(list))))
  }

  /** A reply without text is an error, not a reason to fall back. */
  lemma MissingTextIsError(env: Env, userId: string, courses: Option<seq<Course>>,
                           text: Option<string>, parse: string -> Parsed,
                           shuffle: seq<Course> -> seq<Course>)
    requires Truthy(env.geminiKey) && Truthy(env.url) && Truthy(env.serviceKey) && userId != []
    requires !Truthy(text)
    ensures Handle(env, Some(userId), courses, Body(text), parse, shuffle) == Failure(InvalidReply)
  {
  }

  /** Every suggestion gives one entry, in order, with its reason and the
      table's course for its id, or no course when the id matches none. */
  lemma JoinedSuggestions(all: seq<Course>, list: seq<Suggestion>)
    ensures var r := Combine(list, Selected(all, Ids(list)));
      |r| == |list| &&
      forall k :: 0 <= k < |r| ==> r[k] == Entry(Find(all, list[k].courseId), list[k].reason)
  {
    var r := Combine(list, Selected(all, Ids(list)));
    forall k | 0 <= k < |list| ensures r[k] == Entry(Find(all, list[k].courseId), list[k].reason) {
      assert Ids(list)[k] == list[k].courseId;
      FindSelected(all, Ids(list), list[k].courseId);
    }
  }

  /** The parsed path: the reply joins the model's suggestions. */
  lemma ParsedPath(env: Env, userId: string, all: seq<Course>, text: string, block: string,
                   list: seq<Suggestion>, parse: string -> Parsed, shuffle: seq<Course> -> seq<Course>)
    requires Truthy(env.geminiKey) && Truthy(env.url) && Truthy(env.serviceKey) && userId != []
    requires text != [] && ExtractJsonBlock(text) == Some(block) && parse(block) == Object(Some(list))
    ensures Handle(env, Some(userId), Some(all), Body(Some(text)), parse, shuffle)
         == Suggested(Combine(list, Selected(all, Ids(list))))
  {
  }

  /** With no JSON block, or one that does not parse, the reply carries the
      random suggestions. */
  lemma FallbackReply(env: Env, userId: string, all: seq<Course>, text: string,
                      parse: string -> Parsed, shuffle: seq<Course> -> seq<Course>)
    requires Truthy(env.geminiKey) && Truthy(env.url) && Truthy(env.serviceKey) && userId != []
    requires text != []
    requires ExtractJsonBlock(text).None? || parse(ExtractJsonBlock(text).value) == SyntaxError
    ensures var list := RandomSuggestions(shuffle(all));
      Handle(env, Some(userId), Some(all), Body(Some(text)), parse, shuffle)
        == Suggested(Combine(list, Selected(all, Ids(list))))
  {
  }

  /** The random suggestions are the first four courses of the shuffled table
      (fewer when the table is smaller), each one found and carrying the fixed
      reason, when the shuffle is a permutation of a table with unique ids. */
  lemma RandomEntries(all: seq<Course>, shuffled: seq<Course>)
    requires multiset(shuffled) == multiset(all) && UniqueIds(all)
    ensures var list := RandomSuggestions(shuffled);
      var r := Combine(list, Selected(all, Ids(list)));
      |r| == (if |all| < FallbackCount then |all| else FallbackCount) &&
      forall k :: 0 <= k < |r| ==> r[k] == Entry(Some(shuffled[k]), Some(FallbackReason)) && shuffled[k] in all
  {
    var list := RandomSuggestions(shuffled);
    assert |shuffled| == |all| by {
      assert |multiset(shuffled)| == |multiset(all)|;
    }
    JoinedSuggestions(all, list);
    forall k | 0 <= k < |list|
      ensures Find(all, list[k].courseId) == Some(shuffled[k]) && shuffled[k] in all
    {
      assert shuffled[k] in multiset(all);
      var i :| 0 <= i < |all| && all[i] == shuffled[k];
      FindOwnId(all, i);
    }
  }

  /** The random suggestions name distinct courses. */
  lemma RandomEntriesDistinct(all: seq<Course>, shuffled: seq<Course>)
    requires multiset(shuffled) == multiset(all) && UniqueIds(all)
    ensures var list := RandomSuggestions(shuffled);
      var r := Combine(list, Selected(all, Ids(list)));
      forall k, l :: 0 <= k < l < |r| ==> r[k].course != r[l].course
  {
    RandomEntries(all, shuffled);
    PermutationUniqueIds(all, shuffled);
  }

  /** A permutation of a table with unique ids has unique ids. */
  lemma PermutationUniqueIds(a: seq<Course>, b: seq<Course>)
    requires multiset(a) == multiset(b) && UniqueIds(a)
    ensures UniqueIds(b)
  {
    forall i, j | 0 <= i < j < |b| ensures b[i].id != b[j].id {
      assert b[i] in multiset(a) && b[j] in multiset(a);
      var x :| 0 <= x < |a| && a[x] == b[i];
      var y :| 0 <= y < |a| && a[y] == b[j];
      if b[i].id == b[j].id {
        CountOne(a, x);
        CountTwo(b, i, j);
        assert false;
      }
    }
  }

  /** In a table with unique ids every row occurs once. */
  lemma CountOne(a: seq<Course>, x: nat)
    requires UniqueIds(a) && x < |a|
    ensures multiset(a)[a[x]] == 1
  {
    var rest := a[..x] + a[x + 1..];
    assert a == a[..x] + [a[x]] + a[x + 1..];
    forall z | 0 <= z < |rest| ensures rest[z] != a[x] {
      if z < x {
        assert rest[z] == a[z];
      } else {
        assert rest[z] == a[z + 1];
      }
    }
    assert a[x] !in rest;
  }

  lemma CountTwo(b: seq<Course>, i: nat, j: nat)
    requires i < j < |b| && b[i] == b[j]
    ensures multiset(b)[b[i]] >= 2
  {
    assert b == b[..i] + [b[i]] + b[i + 1..j] + [b[j]] + b[j + 1..];
  }
}
