# Course platform: search, recommendation and progress rules

This project models the deterministic core of a course-learning platform. The platform is a React front end with Supabase tables and two edge functions. The model covers:

- **Search.** The `semantic-search` edge function answers a query with catalogue courses. They come in the order an AI model ranked their ids, or from a keyword match when the model cannot be used. The `useSemanticSearch` hook calls that function, has its own keyword fallback, and builds autocomplete suggestions. The `useSearch` hook and the `SearchFilters` component build the catalogue query from a text and a filter object.
- **Recommendations.** The `gemini-suggestions` edge function profiles a user, asks Gemini for suggestions, falls back to four random courses, and joins the suggestions back to courses. The `useGeminiSuggestions` hook asks the `ai` function and keeps the ranked courses that exist, falling back to the first three courses. The `GeminiSuggestions` component shows the result.
- **Progress, favourites, certificates and achievements.** The `useProgress`, `useFavorites`, `useCertificates` and `useAnalytics` hooks.
- **Pages.** The blog listing with its filters and pages (`Blog`), the course player (`CoursePlayer`), the progress card (`ProgressCard`) and the dashboard's names and avatar (`Dashboard`).

Every database query, function call and model call is an input of the model:

- a table is a `seq` of rows;
- a query that can fail is an `Option` or a `failed` flag;
- the AI reply is an optional string;
- `JSON.parse` is a function parameter;
- the random shuffle is a parameter (a permutation where a lemma needs one).

Hook and page state that the source updates in place are classes whose methods say the whole new state. Pure rules are functions with lemmas.

Shared modules:

- `Wrappers`: `Option`.
- `Seqs`: filter, take, subsequence, insertion-ordered set, descending sort.
- `Text`: JavaScript `trim`, ASCII case folding, `includes`, `split`/`join`, decimal numbers.
- `Tables`: the rows of `courses`, `course_progress` and `user_favorites`, and `find` by id.
- `Durations`: the three minute formatters and a reader that gets the minutes back from each of them.

Notable behaviours of the code:

- In `semantic-search`, a parsed reply that is not an array makes `.map` throw, and the function answers 500. It does not resolve to an empty list.
- In `gemini-suggestions`, a suggestion whose id matches no course stays in the reply as a reason-only entry. `.filter(Boolean)` keeps the spread object. The client hook, in contrast, drops such ids.
- In `gemini-suggestions`, a Gemini reply without text is an error (500). It is not a reason to fall back.
- `useGeminiSuggestions` invokes the function named `ai`, and its fallback is the first three courses without reasons.
- `CoursePlayer` flips `isFavorite` once `toggleFavorite` returns, even when the toggle wrote nothing (for example, with no user).
- `startCourse` does not write `is_completed`, so restarting a completed course keeps it completed.

## Model

| member | source | states |
|---|---|---|
| SemanticSearch.Handle | supabase/functions/semantic-search/index.ts:16-170 | 400 exactly for an absent or empty query. A keyword answer is the keyword fallback over the fetched courses, with no total. An AI answer comes from a gateway answer and lists only catalogue courses, with total equal to its length. |
| SemanticSearch.BlankQueryAccepted | supabase/functions/semantic-search/index.ts:18-23 | A non-empty query of white space is not refused with 400. |
| SemanticSearch.KeywordFallback | supabase/functions/semantic-search/index.ts:95-102 | At most 8 courses. All are matching catalogue courses, in catalogue order, and they are a prefix of all matches. Under 8 means every match is included. |
| SemanticSearch.SameFallback | supabase/functions/semantic-search/index.ts:92-149 | A non-OK gateway status, a missing or empty reply text and an unparsable reply all give the same keyword answer. |
| SemanticSearch.FencedPayload | supabase/functions/semantic-search/index.ts:132 | A payload inside a "```json" fence reaches the parser as its trimmed inner text. |
| SemanticSearch.UnfencedPayload | supabase/functions/semantic-search/index.ts:132 | A payload without backticks reaches the parser only trimmed. |
| SemanticSearch.StripPlain | supabase/functions/semantic-search/index.ts:132 | Text without backticks passes through fence removal unchanged. |
| SemanticSearch.MarkerLength | supabase/functions/semantic-search/index.ts:132 | Only a backtick, or a newline before a backtick, can start a fence marker, and a marker fits in the text. |
| SemanticSearch.CourseOf | supabase/functions/semantic-search/index.ts:152-153 | An id contributes at most one course, a catalogue course with that id. |
| SemanticSearch.Resolve | supabase/functions/semantic-search/index.ts:152-154 | No more courses than ids, and every course is a catalogue course whose id was listed. |
| SemanticSearch.ResolveKnown | supabase/functions/semantic-search/index.ts:152-154 | Position by position, the result is the first catalogue course of each known id, in id order. |
| SemanticSearch.ResolveIgnoresUnknown | supabase/functions/semantic-search/index.ts:152-154 | Dropping the unknown ids first changes nothing. |
| SemanticSearch.ResolveAppend | supabase/functions/semantic-search/index.ts:152-154 | Resolving two id lists one after the other is resolving their concatenation. |
| SemanticSearch.ResolveAllKnown | supabase/functions/semantic-search/index.ts:152-154 | When every id is known, each id yields one course with that id, in order. |
| SemanticSearch.DuplicateIds | supabase/functions/semantic-search/index.ts:152-154 | A known id listed twice yields its course twice. |
| SemanticSearch.NoCapOnAiPath | supabase/functions/semantic-search/index.ts:152-160 | Nine known ids yield nine courses: the cap of 8 applies only to the fallback. |
| SemanticSearch.AiPath | supabase/functions/semantic-search/index.ts:131-160 | A reply parsed as an id array gives the resolved courses, tagged AI, with total equal to their number. |
| SemanticSearch.Interpret | supabase/functions/semantic-search/index.ts:131-160 | After parsing: a syntax error is the keyword fallback without a total, a failure is a 500, and an AI answer comes only from an id array, lists only catalogue courses and has their number as its total. |
| SemanticSearch.StripFences | supabase/functions/semantic-search/index.ts:132 | Removing the fence markers never lengthens the text; StripPlain and MarkerLength say what is removed. |
| SemanticSearch.CleanReply | supabase/functions/semantic-search/index.ts:132 | The parser's input is no longer than the reply and has no white space at either end. |
| SemanticSearch.Matches | supabase/functions/semantic-search/index.ts:95-99 | The keyword rule: the query occurs, ignoring case, in the title, description or category. KeywordFallback and SemanticSearchHook.FailedCallFallsBack rest on it. |
| SemanticSearchHook.Hook.Search | src/hooks/useSemanticSearch.tsx:31-99 | A blank query sends nothing and returns and stores no courses. Otherwise it sends the trimmed query and, for a signed-in user, the profile read from the progress rows and the courses they join. It returns exactly the new results: the function's courses, or the hook's keyword fallback on the raw query when the call failed. `loading` ends false. |
| SemanticSearchHook.Answer | src/hooks/useSemanticSearch.tsx:61-95 | A delivered call that the function answers with courses returns exactly those courses. An undelivered call or an error answer gives the keyword fallback on the untrimmed query over the fallback table. Every course returned is a fallback-table or catalogue course. |
| SemanticSearchHook.DeliveredAiAnswer | src/hooks/useSemanticSearch.tsx:61-83 | A delivered call whose reply parses as an id array returns the catalogue courses of those ids in id order (unknown ids dropped), whatever the fallback table holds. |
| SemanticSearchHook.AnswerSeesTrimmedQuery | src/hooks/useSemanticSearch.tsx:61-66 | Two queries that trim to the same text get the same answer from the function. |
| SemanticSearchHook.FailedCallFallsBack | src/hooks/useSemanticSearch.tsx:68-79 | A failed call returns at most 8 table rows that match the raw query. |
| SemanticSearchHook.ProfileOf | src/hooks/useSemanticSearch.tsx:48-58 | The profile holds exactly the user's progress rows, in order. Its completed rows are exactly those marked completed, in order. Its preferences are those of the rows (Preferences), no more than the rows. |
| SemanticSearchHook.Preferences | src/hooks/useSemanticSearch.tsx:57 | No more preferences than rows, and each is the non-empty category of a catalogue course. |
| SemanticSearchHook.PreferencesByRow | src/hooks/useSemanticSearch.tsx:57 | Position by position, the preferences are the categories of the rows whose course has a non-empty category, in row order, repeats kept. |
| Tables.CategoryOf | src/hooks/useSemanticSearch.tsx:57 | A category exactly when the row's course exists and has a non-empty category, and then it is that course's category. |
| SemanticSearchHook.Hook.GetSuggestions | src/hooks/useSemanticSearch.tsx:101-124 | Returns exactly the suggestion function's value. |
| SemanticSearchHook.Suggestions | src/hooks/useSemanticSearch.tsx:101-124 | Empty for blank or one-character input. Otherwise the first five distinct candidates of the matching rows, in insertion order: distinct strings containing the input ignoring case, drawn from the candidates, and every candidate is included unless five are already shown. |
| SemanticSearchHook.SuggestionsOrder | src/hooks/useSemanticSearch.tsx:113-124 | An earlier suggestion first occurs earlier among the candidates (insertion order). |
| SemanticSearchHook.TitleBeforeCategory | src/hooks/useSemanticSearch.tsx:115-122 | For a first course whose title and category both match and differ, the title is the first suggestion and the category the second, whatever courses follow. |
| SemanticSearchHook.FirstRowLeads | src/hooks/useSemanticSearch.tsx:107-111 | A first course with a candidate is the first row consulted. |
| SemanticSearchHook.PairLeads | src/hooks/useSemanticSearch.tsx:113-122 | A first row whose title and category both match and differ puts the title and then the category at the head of the set. |
| SemanticSearchHook.Hook.FillSet | src/hooks/useSemanticSearch.tsx:113-122 | The loop leaves the insertion-ordered set of all candidates, course by course. |
| SemanticSearchHook.FillStep | src/hooks/useSemanticSearch.tsx:115-122 | One more course adds its title, then its category, each when it matches and is new. |
| SemanticSearchHook.SuggestionRows | src/hooks/useSemanticSearch.tsx:107-111 | The first min(5, n) of the n rows with a candidate, in table order. |
| SemanticSearchHook.CandidatesOf | src/hooks/useSemanticSearch.tsx:116-121 | Every candidate contains the input ignoring case, and with two candidates the title comes first. |
| GeminiSuggestions.Handle | supabase/functions/gemini-suggestions/index.ts:20-172 | The missing-environment error exactly when a key or URL is missing. The missing-user error exactly when the environment is complete and the user id is missing. |
| GeminiSuggestions.ProfileOf | supabase/functions/gemini-suggestions/index.ts:48-65 | Counts the user's completed rows, and the unfinished ones with a percentage above 0, never more than the rows. Its favourite categories are those of the user's favourites (FavoriteCategories). The level is intermediate exactly with more than 3 completed. |
| GeminiSuggestions.LevelFor | supabase/functions/gemini-suggestions/index.ts:64 | "intermediário" exactly above 3 completed courses, "iniciante" otherwise. |
| GeminiSuggestions.FavoriteCategories | supabase/functions/gemini-suggestions/index.ts:55-58 | Position by position, the category of each favourite whose course has a non-empty category, in favourite order, repeats kept; each is a catalogue category. |
| GeminiSuggestions.FavoriteCategoriesOrder | supabase/functions/gemini-suggestions/index.ts:55-58 | The categories of two lists of favourites joined are the categories of the first followed by those of the second. |
| GeminiSuggestions.MissingTextIsError | supabase/functions/gemini-suggestions/index.ts:117-119 | A reply without text is the invalid-reply error, not a fallback. |
| GeminiSuggestions.IndexOf | supabase/functions/gemini-suggestions/index.ts:128 | The first occurrence of a character, or none when it does not occur. |
| GeminiSuggestions.LastIndexOf | supabase/functions/gemini-suggestions/index.ts:128 | The last occurrence of a character, or none when it does not occur. |
| GeminiSuggestions.BlockBounds | supabase/functions/gemini-suggestions/index.ts:128 | The first '{' and the last '}', with the '{' before the '}'. None exactly when no '{' comes before a '}'. |
| GeminiSuggestions.ExtractJsonBlock | supabase/functions/gemini-suggestions/index.ts:128-133 | None exactly when no '{' precedes a '}'. Otherwise the text from the first '{' to the last '}', both included. |
| GeminiSuggestions.RandomSuggestions | supabase/functions/gemini-suggestions/index.ts:137-142 | The first min(4, n) shuffled courses, each with the reason "Recomendado para você". |
| GeminiSuggestions.FallbackReply | supabase/functions/gemini-suggestions/index.ts:127-160 | With no JSON block, or a block that does not parse, the reply joins the random suggestions. |
| GeminiSuggestions.ParsedPath | supabase/functions/gemini-suggestions/index.ts:127-160 | A parsed suggestion list is joined to its courses. |
| GeminiSuggestions.Combine | supabase/functions/gemini-suggestions/index.ts:154-160 | One entry per suggestion, in order, each with that suggestion's reason. |
| GeminiSuggestions.JoinedSuggestions | supabase/functions/gemini-suggestions/index.ts:147-160 | Each entry carries the table's course for its id, or no course (reason only) when no course has the id. |
| GeminiSuggestions.FindSelected | supabase/functions/gemini-suggestions/index.ts:148-156 | Finding a listed id among the `.in` selection is finding it in the whole table. |
| GeminiSuggestions.Ids | supabase/functions/gemini-suggestions/index.ts:147 | The suggestions' course ids, in order. |
| GeminiSuggestions.RandomEntries | supabase/functions/gemini-suggestions/index.ts:137-160 | For a permutation of a table with unique ids, the fallback gives min(4, table size) entries, each a table course with the fixed reason. |
| GeminiSuggestions.RandomEntriesDistinct | supabase/functions/gemini-suggestions/index.ts:137-142 | Those fallback entries are distinct courses. |
| GeminiSuggestions.PermutationUniqueIds | supabase/functions/gemini-suggestions/index.ts:137 | Shuffling a table with unique ids keeps them unique. |
| GeminiSuggestionsHook.Hook.FetchSuggestions | src/hooks/useGeminiSuggestions.tsx:26-115 | Without a user, nothing changes and nothing is sent. Otherwise it sends the user context read from the progress and favourites rows and the courses they join, stores the fetched suggestions and ends with `loading` false. |
| GeminiSuggestionsHook.ContextOf | src/hooks/useGeminiSuggestions.tsx:53-59 | Position by position, the completed list is the joined course of each completed user row and the in-progress list that of each other user row, whatever its percentage; the favourites list is the joined course of each user favourite; all in row order. The watch time is the sum of the user's minutes. |
| GeminiSuggestionsHook.FirstCourses | src/hooks/useGeminiSuggestions.tsx:81-108 | The first min(3, n) courses, without reasons. |
| GeminiSuggestionsHook.Recommendations | src/hooks/useGeminiSuggestions.tsx:89-93 | None on an invocation error; a parsed list only for a non-empty cleaned response, and then it is the parse of that text. |
| GeminiSuggestionsHook.Fetched | src/hooks/useGeminiSuggestions.tsx:81-108 | An invocation error shows the first three courses; every shown suggestion is a fetched course. |
| GeminiSuggestionsHook.UnusableAnswer | src/hooks/useGeminiSuggestions.tsx:81-108 | An invocation error, a missing or empty response, or a cleaned response that does not parse as an array shows the first three courses. |
| GeminiSuggestionsHook.ParsedAnswer | src/hooks/useGeminiSuggestions.tsx:90-102 | A non-empty response that parses as an array shows its recommendations joined to courses. |
| GeminiSuggestionsHook.Enhance | src/hooks/useGeminiSuggestions.tsx:95-100 | No more suggestions than recommendations, and each is a catalogue course. |
| GeminiSuggestionsHook.EnhanceKnown | src/hooks/useGeminiSuggestions.tsx:95-100 | Position by position, the suggestions are the known recommendations in order, each with its course and its reason. Unknown ids are dropped. |
| GeminiSuggestionsHook.Joined | src/hooks/useGeminiSuggestions.tsx:53-59 | Each id joined to its first course, in order. |
| GeminiSuggestionsHook.Hook.HasSuggestions | src/hooks/useGeminiSuggestions.tsx:117 | True exactly when the list is not empty. |
| CourseSearch.SearchHook.BuildQuery | src/hooks/useSearch.tsx:34-71 | The clauses admit exactly the wanted courses: the text when it is not blank, the exact filters and the duration bucket. |
| CourseSearch.SearchHook.AddExact | src/hooks/useSearch.tsx:46-56 | The category, level and instructor clauses add exactly their exact matches. |
| CourseSearch.SearchHook.AddDuration | src/hooks/useSearch.tsx:59-71 | The duration clauses add exactly the chosen bucket; an unknown value adds nothing. |
| CourseSearch.AdmitsSnoc | src/hooks/useSearch.tsx:34-71 | A chained clause admits the rows satisfying the old clauses and the new one. |
| CourseSearch.BucketsPartition | src/hooks/useSearch.tsx:59-71 | Every number of minutes is in exactly one of short (up to 60), medium (61 to 180) and long. |
| CourseSearch.NothingSetAdmitsAll | src/hooks/useSearch.tsx:39-71 | A blank text with no filters wants every course. |
| CourseSearch.UnsetFilterIgnored | src/hooks/useSearch.tsx:46-71 | An absent or empty filter imposes nothing. |
| CourseSearch.Wanted | src/hooks/useSearch.tsx:39-71 | The page's rule: TextOk, ExactOk and DurationOk together. BuildQuery proves the chained clauses admit exactly these courses. |
| CourseSearch.TextOk | src/hooks/useSearch.tsx:39-44 | A blank text wants every course; any other text must occur, ignoring case, in the title, description or instructor. |
| CourseSearch.ExactOk | src/hooks/useSearch.tsx:46-56 | Each set category, level and instructor filter equals the course's own value. |
| CourseSearch.DurationOk | src/hooks/useSearch.tsx:59-71 | A set duration filter puts the course's minutes in its bucket. |
| CourseSearch.InBucket | src/hooks/useSearch.tsx:59-71 | Short is up to 60 minutes, medium 61 to 180, long above 180, and an unknown bucket takes everything; BucketsPartition is its partner. |
| CourseSearch.Results | src/hooks/useSearch.tsx:34-75 | The wanted table rows, newest first, each as often as in the table. |
| CourseSearch.SearchHook.SearchCourses | src/hooks/useSearch.tsx:30-85 | The courses become the results, or none when the query fails; query and filters unchanged, `loading` false. |
| CourseSearch.SearchHook.GetAllCourses | src/hooks/useSearch.tsx:87-103 | The whole table newest first, or none on an error. |
| CourseSearch.SearchHook.UpdateFilters | src/hooks/useSearch.tsx:105-108 | New filters with the current query, and the courses searched again. |
| CourseSearch.SearchHook.UpdateSearch | src/hooks/useSearch.tsx:110-113 | New query with the current filters, and the courses searched again. |
| CourseSearch.SearchHook.constructor | src/hooks/useSearch.tsx:25-28 | No courses, empty query and filters, not loading. |
| SearchFilters.UpdateFilter | src/components/SearchFilters.tsx:35-43 | Returns the copy edited by the update rule; the given map is a value and is not changed. |
| SearchFilters.Updated | src/components/SearchFilters.tsx:36-41 | An absent or empty value removes the key, any other sets it, and every other key is kept. |
| SearchFilters.UpdateIdempotent | src/components/SearchFilters.tsx:35-43 | The same update twice is the update once. |
| SearchFilters.SetThenClear | src/components/SearchFilters.tsx:35-43 | Setting a key and then clearing it is clearing it. |
| SearchFilters.HasActiveFilters | src/components/SearchFilters.tsx:45 | True exactly when some key is present. |
| SearchFilters.ClearedInactive | src/components/SearchFilters.tsx:35-45 | Clearing the four keys leaves no filter active. |
| SearchFilters.LabelOf | src/components/SearchFilters.tsx:162-171 | A label exactly when some option has the value, and then it is that option's label. |
| SearchFilters.LabelOfOwn | src/components/SearchFilters.tsx:162-171 | With distinct values, each option's value finds its own label. |
| SearchFilters.BadgeLabels | src/components/SearchFilters.tsx:22-32 | Every level and duration value shows its own label. |
| SearchFilters.Piece | src/components/SearchFilters.tsx:151-186 | A badge exactly for a truthy key: levels and durations show their label, category and instructor their value. |
| SearchFilters.Badges | src/components/SearchFilters.tsx:151-186 | The badges of category, level, duration and instructor, in that order, each as Piece gives it: one badge exactly for a truthy key, showing the label for level and duration and the value otherwise. |
| Blog.FilteredPosts | src/pages/Blog.tsx:97-103 | A post is kept exactly when its title or excerpt contains the term ignoring case and its category matches; fetched order kept, and every copy of a kept post stays. |
| Blog.MatchesSearch | src/pages/Blog.tsx:97-100 | The term occurs, ignoring case, in the title or in a non-null excerpt; FilteredPosts keeps exactly such posts. |
| Blog.MatchesCategory | src/pages/Blog.tsx:101-102 | Category "all", or a post whose category has that slug. |
| Blog.NoFilterKeepsAll | src/pages/Blog.tsx:97-103 | No term with category "all" keeps every post in order. |
| Blog.TotalPages | src/pages/Blog.tsx:105 | The smallest number of 6-post pages that holds the posts. |
| Blog.SliceIndex | src/pages/Blog.tsx:106-107 | A slice index is clamped to the list, and a non-negative one is used as given. |
| Blog.JsSlice | src/pages/Blog.tsx:107 | A slice is no longer than the list, nor than its index range. |
| Blog.PageOf | src/pages/Blog.tsx:106-107 | A page holds at most 6 posts: the ones from (page - 1) * 6 on. |
| Blog.PageStart | src/pages/Blog.tsx:105-107 | A page is one of the pages exactly when it starts inside the list. |
| Blog.PagesCoverAll | src/pages/Blog.tsx:105-107 | Pages 1 to the last, one after the other, are the filtered list. |
| Blog.PreviousPage | src/pages/Blog.tsx:288 | One less than a page above 1, and 1 otherwise. |
| Blog.NextPage | src/pages/Blog.tsx:309 | One more than a page below the page count, and the page count otherwise. |
| Blog.PagingStaysInRange | src/pages/Blog.tsx:284-313 | The previous and next buttons keep the page in range. |
| Blog.BlogPage.constructor | src/pages/Blog.tsx:47-53 | No posts, loading, empty term, category "all", page 1. |
| Blog.BlogPage.Load | src/pages/Blog.tsx:59-95 | Fetched posts replace the list and loading ends; term, category and page unchanged. |
| Blog.BlogPage.SetSearchTerm | src/pages/Blog.tsx:164-167 | The term changes and the page is reset to 1. |
| Blog.BlogPage.SetCategory | src/pages/Blog.tsx:172-175 | The category changes and the page is reset to 1. |
| Blog.BlogPage.Previous | src/pages/Blog.tsx:288-289 | Disabled on page 1, else the previous page. |
| Blog.BlogPage.Next | src/pages/Blog.tsx:309-310 | Disabled on the last page, else the next page. |
| Blog.BlogPage.GoTo | src/pages/Blog.tsx:300 | The numbered button's page. |
| Blog.BlogPage.CurrentPosts | src/pages/Blog.tsx:106-107 | At most 6 posts on a valid page. |
| Progress.UserStats | src/hooks/useProgress.tsx:49-90 | None without a user or on a failed query. Otherwise the user's row count, completed count, in-progress count (bounded by the total) and summed minutes. The 3 most recently watched rows, newest first, drawn from the user's rows: no left-out row was watched later than a kept one. The user's favourite count and first 3 favourites. |
| Progress.PrefixNewest | src/hooks/useProgress.tsx:81-83 | The first n rows of a list sorted newest first are sorted, come from the list, and none of the others was watched later. |
| Progress.SplitNewest | src/hooks/useProgress.tsx:81-83 | In a list sorted newest first, every front row was watched no earlier than every back row. |
| Progress.ProgressPayload | src/hooks/useProgress.tsx:98-107 | Completed exactly at 100 or more; percentage clamped to 100; completion time only when completed; minutes only when given and non-zero. |
| Progress.StartPayload | src/hooks/useProgress.tsx:191-198 | Percentage 0 and the time, nothing else written. |
| Progress.Apply | src/hooks/useProgress.tsx:98-111 | Written columns take the payload, others keep the row's value or the column default. |
| Progress.Upsert | src/hooks/useProgress.tsx:111 | The row of its (user, course) pair is replaced or added, and pairs stay unique. |
| Progress.UpsertKeepsOthers | src/hooks/useProgress.tsx:111 | Every other pair's row is unchanged. |
| Progress.Lookup | src/hooks/useProgress.tsx:111 | The pair's row exactly when one exists. |
| Progress.PairIndex | src/hooks/useProgress.tsx:111 | The position of the pair's first row, or the length when there is none. |
| Progress.SavedProgress | src/hooks/useProgress.tsx:98-111 | After saving, the row is completed exactly at 100 or more, holds at most 100, and has the completion time when completed. |
| Progress.RestartKeepsCompletion | src/hooks/useProgress.tsx:191-198 | Restarting a completed course sets 0 but keeps it completed. |
| Progress.Toggled | src/hooks/useProgress.tsx:139-172 | The pair is removed when present and added otherwise, other favourites kept, no duplicates made. |
| Progress.ToggleTwice | src/hooks/useProgress.tsx:139-172 | Two toggles restore membership, and restore the list itself when the pair was absent. |
| Progress.ProgressStore.UpdateProgress | src/hooks/useProgress.tsx:93-131 | No user: no change. Otherwise the upserted row unless the write failed; congratulates exactly on a successful save at 100 or more. |
| Progress.ProgressStore.StartCourse | src/hooks/useProgress.tsx:186-216 | No user: no change. Otherwise the pair's row upserted with the start payload unless the write failed. |
| Progress.ProgressStore.ToggleFavorite | src/hooks/useProgress.tsx:134-183 | No user: no change. Otherwise the favourites toggled unless the write failed; progress unchanged. |
| Progress.ProgressStore.constructor | src/hooks/useProgress.tsx:111 | The tables hold at most one row per pair. |
| Favorites.FavoritesHook.IsFavoriteNow | src/hooks/useFavorites.tsx:70-72 | True exactly when some favourite has the course id. |
| Favorites.Without | src/hooks/useFavorites.tsx:96 | Every entry of the course removed, the others kept in order. |
| Favorites.With | src/hooks/useFavorites.tsx:126 | One entry for the course prepended. |
| Favorites.AddThenRemove | src/hooks/useFavorites.tsx:96-126 | Adding a course that was not a favourite and removing it restores the list. |
| Favorites.RemoveTwice | src/hooks/useFavorites.tsx:96 | Removing is idempotent. |
| Favorites.FavoritesHook.FetchFavorites | src/hooks/useFavorites.tsx:28-68 | No user: empty list. An error keeps the list. Otherwise the fetched rows. `loading` ends false. |
| Favorites.FavoritesHook.ToggleFavorite | src/hooks/useFavorites.tsx:74-142 | No user: login notice, no change. An error: failure notice, no change. A favourite is removed; otherwise the course is added when its data came back. |
| Favorites.FavoritesHook.constructor | src/hooks/useFavorites.tsx:26-27 | No favourites, loading. |
| Certificates.CertificatesHook.FetchCertificates | src/hooks/useCertificates.tsx:26-83 | No user or no rows: none. A certificate query error keeps the list. Otherwise the join, unless the course query failed. `loading` ends false. |
| Certificates.Joined | src/hooks/useCertificates.tsx:58-70 | One entry per certificate row, in order. |
| Certificates.WithCourse | src/hooks/useCertificates.tsx:59-68 | The first course with the row's id, or the placeholder. |
| Certificates.JoinedCourses | src/hooks/useCertificates.tsx:58-70 | Each entry keeps its row and a course of its id; a missing one is "Curso não encontrado" with duration 0. |
| Certificates.FindSummary | src/hooks/useCertificates.tsx:60 | The first course with the id, exactly when there is one. |
| Certificates.Placeholder | src/hooks/useCertificates.tsx:62-68 | The row's id, title "Curso não encontrado", duration 0. |
| Certificates.DurationText | src/hooks/useCertificates.tsx:94 | h hours and m minutes with m below 60 and h * 60 + m the course's minutes, and it reads back as those minutes. |
| Certificates.StudentName | src/hooks/useCertificates.tsx:89 | The display name, or "Estudante". |
| Analytics.Achievements | src/hooks/useAnalytics.tsx:45-102 | Exactly six achievements. |
| Analytics.UnlockRules | src/hooks/useAnalytics.tsx:51-99 | Unlocked at more than 0 completed, 600 minutes watched, 5 favourites, 10 completed and 3 courses; "Velocista" never. |
| Analytics.Goal | src/hooks/useAnalytics.tsx:59-90 | Progress is min(x, max) and unlocked exactly at x >= max. |
| Analytics.GoalFull | src/hooks/useAnalytics.tsx:59-90 | Unlocked exactly when the bar is full. |
| Analytics.Capped | src/hooks/useAnalytics.tsx:60 | min(x, max). |
| Analytics.ProgressBounded | src/hooks/useAnalytics.tsx:59-90 | Every bar stays within its maximum. |
| Analytics.NoStatsNothingUnlocked | src/hooks/useAnalytics.tsx:51-90 | Without statistics nothing is unlocked. |
| Analytics.AtMostFiveUnlocked | src/hooks/useAnalytics.tsx:99 | At most five of six are unlocked. |
| Analytics.UnlockedCount | src/hooks/useAnalytics.tsx:109 | No more than the achievements. |
| Analytics.Insights | src/hooks/useAnalytics.tsx:105-110 | Four insight lines. |
| Analytics.HoursInsight | src/hooks/useAnalytics.tsx:106 | The first line gives, after its lead, the whole hours watched. |
| Analytics.CountInsight | src/hooks/useAnalytics.tsx:109 | The fourth line starts with the number of unlocked achievements and goes on, after " conquistas desbloqueadas de ", with the total, 6. |
| Analytics.CountTotalLine | src/hooks/useAnalytics.tsx:109 | In the count line, the number after " conquistas desbloqueadas de " reads back as the number of achievements. |
| Analytics.AnalyticsOf | src/hooks/useAnalytics.tsx:112-118 | Total minutes are the watch time or 0, with the achievements and insights of the statistics. |
| Analytics.AnalyticsHook.LoadAnalytics | src/hooks/useAnalytics.tsx:122-134 | No user: no change. Otherwise the analytics of the statistics, `loading` false. |
| CoursePlayer.Player.LoadUserProgress | src/pages/CoursePlayer.tsx:64-92 | No course or user: no change. Otherwise the saved percentage and minutes when a row exists, and the favourite flag. |
| CoursePlayer.Player.HandleProgress | src/pages/CoursePlayer.tsx:94-107 | No course or user: no change. Otherwise the percentage and whole minutes are kept, and written exactly on a multiple of 30 seconds. |
| CoursePlayer.OneSavePerWindow | src/pages/CoursePlayer.tsx:100-101 | Reports in different whole seconds less than 30 seconds apart write at most once. |
| CoursePlayer.Player.HandleToggleFavorite | src/pages/CoursePlayer.tsx:109-114 | With a course, the flag flips after the toggle call. |
| CoursePlayer.Player.constructor | src/pages/CoursePlayer.tsx:20-22 | Progress 0, no minutes, not a favourite. |
| CoursePlayer.Initials | src/pages/CoursePlayer.tsx:207 | For every name, the first characters of the first two non-empty space-separated segments (fewer when there are fewer), case kept: empty segments from repeated, leading or trailing spaces add nothing. |
| CoursePlayer.InitialsOfWords | src/pages/CoursePlayer.tsx:207 | For words without spaces, the first characters of the first two words. |
| Durations.Compact | src/pages/CoursePlayer.tsx:116-120 | Under an hour, the minutes only. From one hour on, h hours and m minutes with h at least 1, m below 60 and h * 60 + m the minutes. |
| Durations.ReadCompact | src/components/ProgressCard.tsx:17-21 | Reads back as the minutes it writes. |
| Durations.Rounded | src/components/GeminiSuggestions.tsx:17-24 | Under an hour, the minutes only; a whole number of hours, the hours only; otherwise h hours and m minutes with 0 < m < 60 and h * 60 + m the minutes. |
| Durations.ReadRounded | src/components/GeminiSuggestions.tsx:17-24 | Reads back as the minutes it writes. |
| Durations.Full | src/hooks/useCertificates.tsx:94 | Always h hours and m minutes with m below 60 and h * 60 + m the minutes, even under an hour. |
| Durations.ReadFull | src/hooks/useCertificates.tsx:94 | Reads back as the minutes it writes, even under an hour. |
| Durations.ReadWatch | src/components/ProgressCard.tsx:23-25 | The watch text reads back as both times. |
| Durations.WatchTime | src/components/ProgressCard.tsx:23-25 | The watched and the total time in the compact form, joined by " / "; ReadWatch reads both back. |
| Cards.EntryOf | src/components/GeminiSuggestions.tsx:86-115 | The course's id and title; a reason line exactly for a non-empty reason, marked "✨ "; a duration that reads back as the minutes. |
| Cards.PanelOf | src/components/GeminiSuggestions.tsx:26-131 | Loading wins over the empty state, the empty state over the list, and the list has one entry per suggestion in order. |
| Cards.CardOf | src/components/ProgressCard.tsx:13-84 | Nothing without a course. "Iniciar" exactly at 0%, else "Continuar". "Concluído" exactly when completed, else the percentage. A watch text that reads back as both times. |
| Cards.ReadPercent | src/components/ProgressCard.tsx:57-67 | The percent text reads back as the percentage. |
| Dashboard.Initials | src/pages/Dashboard.tsx:12-19 | For every name, the upper-cased first characters of the first two non-empty space-separated segments (fewer when there are fewer): empty segments from repeated, leading or trailing spaces add nothing. |
| Dashboard.InitialsOfWords | src/pages/Dashboard.tsx:12-19 | For words without spaces, the upper-cased first characters of the first two words. |
| Dashboard.SpacesSkipped | src/pages/Dashboard.tsx:13-18 | A leading space adds no initial. |
| Dashboard.AvatarText | src/pages/Dashboard.tsx:36-40 | The name's initials, else the upper-cased first e-mail character, else "U". |
| Dashboard.NameOr | src/pages/Dashboard.tsx:55 | The display name when truthy, else the default. |
| Dashboard.Names | src/pages/Dashboard.tsx:55-197 | Greeting and profile name agree exactly when there is a display name. |
| Text.Trim | src/hooks/useSemanticSearch.tsx:32 | Empty exactly for white space, and no white space at either end. |
| Text.TrimInner | src/hooks/useSemanticSearch.tsx:32 | The trimmed text is a slice of the input with only white space before and after it. |
| Text.TrimIdempotent | src/hooks/useSemanticSearch.tsx:32-63 | Trimming twice is trimming once. |
| Text.FirstCharsNonEmpty | src/pages/Dashboard.tsx:13-18 | The first characters of the segments are those of the non-empty segments, one each, in order. |
| Tables.Find | supabase/functions/semantic-search/index.ts:153 | The first course with the id, exactly when there is one. |
| Tables.FindOwnId | supabase/functions/gemini-suggestions/index.ts:156 | With unique ids, a course's id finds that course. |
| Tables.CountCompleted | src/hooks/useProgress.tsx:70-73 | The rows marked completed. |
| Tables.CountStarted | src/hooks/useProgress.tsx:70-73 | The rows not completed with a percentage above 0. |
| Tables.CountsBounded | src/hooks/useProgress.tsx:70-73 | Completed plus in progress never exceed the rows. |
| Tables.WatchTimeAppend | src/hooks/useProgress.tsx:72 | The minutes of two row lists add up. |
| Seqs.SortDesc | src/hooks/useSearch.tsx:73 | Sorted newest first and a permutation of its input. |

## Left out

- Supabase queries, edge-function invocations and HTTP calls are not executed: each result is an input (`Option`, `failed` flag or table snapshot). The query builder's wire format and the database's `ilike` pattern syntax (including `%`/`_` in user input) are not modelled; `ilike` is the substring test ignoring case.
- Prompt texts sent to the models and the model calls themselves are left out: free text with nothing to state. The reply is an optional string and `JSON.parse` an uninterpreted function.
- `Math.random` ordering in the Gemini fallback is a `shuffle` parameter; lemmas that need it assume it is a permutation.
- The `.in('id', ids)` query of `gemini-suggestions` and its first `courses` select read one table snapshot; either query failing while the other succeeds is not modelled (when the first fails, the model joins every parsed suggestion to no course, where the source's second query could still find them).
- Dates and clocks are whole numbers (`now`, `createdAt`, `lastWatchedAt`); date formatting and locale output are not modelled.
- Floating point: the video `currentTime` is its whole seconds (the minutes and the 30-second gate depend only on them); percentages are integers.
- Unicode: `toLowerCase`/`toUpperCase` fold ASCII letters only. Strings are sequences of code points, while JavaScript's `.length`, `s[0]` and `.slice` count UTF-16 code units, so a character outside the Basic Multilingual Plane counts once in the model and twice in the source. This shows in three places: the two-character minimum of `getSuggestions` (a single such character is too short in the model but long enough in the source), the `n[0]` and `.slice(0, 2)` of both `getInitials` (CoursePlayer and Dashboard), which take whole characters here, and the `email[0]` of the avatar fallback.
- Toasts, console logging, HTML, icons, the certificate window and printing are UI or browser I/O.
- `loading` is modelled only at the end of each operation; intermediate renders and concurrent or stale responses are not.
- Profile rows fetched by the hooks (`profiles`) are not used by any rule and are left out of the request bodies.
- The mock analytics figures (weekly progress, categories, study streak) are constants and are not modelled.
- Favourite ids and creation times are not modelled; `useFavorites` entries are a course id with its course.
- `CoursePlayer.loadCourse` and its related-courses query only copy rows into state and are left out.
- `startCourse`, `updateProgress` and `toggleFavorite` of `useProgress` write to a table snapshot held by the model; the real tables' other users and concurrent writers are not modelled.
- The embedded `courses(...)` selects of the progress and favourites queries are `Find` over a `catalog` parameter, the courses table they join; the column subset they select is not modelled.
- OneSavePerWindow: the video time is its whole seconds, so several reports inside one second that is a multiple of 30, each of which writes, are one report in the model.
- In `semantic-search`, a gateway `content` that is not a string makes `.replace` throw and the inner catch falls back to keywords; the model's `content` is an optional string.
- The blog's pagination buttons are shown only when there is more than one page; `Blog.BlogPage.Previous`, `Next` and `GoTo` do not require it.
- `duration_minutes` is a non-null number; some hooks type it `number | null`. The formatters show null as 0, but a NULL duration would fail every bucket test of the catalogue search, where the model's 0 falls in "short".
- Favourite (user, course) pairs are assumed unique in `user_favorites` (the store's `Valid`); with a duplicated pair, `maybeSingle` in `toggleFavorite` errs and the source inserts yet another row, which is not modelled.
- `Progress.UserStats` sorts a copy; the in-place `sort` on the fetched array does not matter after the fetch and is not modelled.
- src/pages/BlogPost.tsx, src/components/SmartSearchBox.tsx and the other pages and components are not part of this model.
