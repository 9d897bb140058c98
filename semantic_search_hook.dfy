/** The `useSemanticSearch` hook: it sends a trimmed query to the
    `semantic-search` function, falls back to a keyword query of its own when
    the call fails, and offers autocomplete suggestions. */
module SemanticSearchHook {
  import opened Wrappers
  import opened Seqs
  import opened Text
  import opened Tables
  import SemanticSearch

  /** The hook's own keyword fallback and its suggestion query return at most this many rows. */
  const FallbackLimit: nat := 8
  const SuggestionLimit: nat := 5

  /** The profile sent along with the query. */
  datatype SearchProfile = SearchProfile(
    progress: seq<ProgressRow>,
    completedCourses: seq<ProgressRow>,
    preferences: seq<string>)

  /** The request body sent to the function. */
  datatype Request = Request(query: string, profile: Option<SearchProfile>)

  /** `progress.map(p => p.courses?.category).filter(Boolean)`: position by
      position, the non-empty categories of the rows' courses, in row order
      and with repeats kept. */
  function Preferences(rows: seq<ProgressRow>, catalog: seq<Course>): (r: seq<string>)
    ensures |r| <= |rows|
    ensures forall x :: x in r ==> x != [] && exists c :: c in catalog && c.category == Some(x)
  {
    if rows == [] then []
    else
      var rest := Preferences(rows[1..], catalog);
      match CategoryOf(catalog, rows[0].courseId)
      case Some(x) => [x] + rest
      case None => rest
  }

  /** Position `k` of the preferences is the category of the `k`-th row whose
      course has one. */
  lemma {:induction false} PreferencesByRow(rows: seq<ProgressRow>, catalog: seq<Course>)
    ensures var r := Preferences(rows, catalog);
      var known := Filter(rows, (p: ProgressRow) => CategoryOf(catalog, p.courseId).Some?);
      |r| == |known| && forall k :: 0 <= k < |r| ==> Some(r[k]) == CategoryOf(catalog, known[k].courseId)
  {
    if rows != [] {
      var keep := (p: ProgressRow) => CategoryOf(catalog, p.courseId).Some?;
      var rest, known := Preferences(rows[1..], catalog), Filter(rows[1..], keep);
      PreferencesByRow(rows[1..], catalog);
      if keep(rows[0]) {
        assert Filter(rows, keep) == [rows[0]] + known;
        assert Preferences(rows, catalog) == [CategoryOf(catalog, rows[0].courseId).value] + rest;
      } else {
        assert Filter(rows, keep) == known;
        assert Preferences(rows, catalog) == rest;
      }
    }
  }

  /** The profile of a signed-in user: their progress rows, the completed ones,
      and the categories of the courses they progressed in, in row order;
      `catalog` is the courses table the embedded `courses(...)` select joins. */
  function ProfileOf(userId: string, progress: Option<seq<ProgressRow>>, catalog: seq<Course>): (p: SearchProfile)
    ensures forall r :: r in p.progress <==> r in progress.GetOr([]) && r.userId == userId
    ensures forall r :: r in p.completedCourses <==> r in p.progress && r.isCompleted
    ensures IsSubseq(p.progress, progress.GetOr([])) && IsSubseq(p.completedCourses, p.progress)
    ensures |p.preferences| <= |p.progress|
    ensures p.preferences == Preferences(p.progress, catalog)
  {
    var mine := Filter(progress.GetOr([]), (r: ProgressRow) => r.userId == userId);
    SearchProfile(mine, Filter(mine, (r: ProgressRow) => r.isCompleted), Preferences(mine, catalog))
  }

  /** What `search` returns for a non-blank query: the function's courses, or,
      when the call fails or answers with an error status, the keyword fallback
      on the untrimmed query over `table` (`None` when that query failed too). */
  function Answer(query: string, delivered: bool, backend: SemanticSearch.Backend,
                  table: Option<seq<Course>>): (r: seq<Course>)
    ensures !delivered || SemanticSearch.Handle(Some(Trim(query)), backend).Failure? ==>
      r == SemanticSearch.KeywordFallback(table.GetOr([]), query)
    ensures delivered && SemanticSearch.Handle(Some(Trim(query)), backend).Found? ==>
      r == SemanticSearch.Handle(Some(Trim(query)), backend).courses
    ensures forall c :: c in r ==> c in table.GetOr([]) || c in backend.courses.GetOr([])
  {
    var reply := SemanticSearch.Handle(Some(Trim(query)), backend);
    if delivered && reply.Found? then reply.courses
    else SemanticSearch.KeywordFallback(table.GetOr([]), query)
  }

  /** Two queries that trim to the same text get the same answer from the function. */
  lemma AnswerSeesTrimmedQuery(q1: string, q2: string, backend: SemanticSearch.Backend, t1: Option<seq<Course>>, t2: Option<seq<Course>>)
    requires Trim(q1) == Trim(q2)
    requires SemanticSearch.Handle(Some(Trim(q1)), backend).Found?
    ensures Answer(q1, true, backend, t1) == Answer(q2, true, backend, t2)
  {
  }

  /** A delivered call whose reply parses as an id array returns the
      catalogue courses of those ids, in id order, whatever the fallback
      table holds. */
  lemma DeliveredAiAnswer(query: string, key: string, courses: seq<Course>, text: string,
                          parse: string -> SemanticSearch.Parsed, ids: seq<string>, table: Option<seq<Course>>)
    requires !AllSpace(query) && key != [] && text != []
    requires parse(SemanticSearch.CleanReply(text)) == SemanticSearch.IdArray(ids)
    ensures var backend := SemanticSearch.Backend(Some(key), Some(courses), SemanticSearch.Answered(Some(text)), parse);
      Answer(query, true, backend, table) == SemanticSearch.Resolve(ids, courses)
  {
    SemanticSearch.AiPath(Trim(query), key, courses, text, parse, ids);
  }

  /** A failed call falls back to at most eight rows of the table matching the raw query. */
  lemma FailedCallFallsBack(query: string, backend: SemanticSearch.Backend, table: seq<Course>)
    ensures var r := Answer(query, false, backend, Some(table));
      |r| <= FallbackLimit && forall c :: c in r ==> c in table && SemanticSearch.Matches(c, query)
  {
  }

  /** One course's autocomplete candidates: its title, then its category, each
      when it contains the partial query ignoring case. */
  function CandidatesOf(c: Course, partial: string): (r: seq<string>)
    ensures forall x :: x in r ==> ContainsIgnoringCase(x, partial)
    ensures |r| == 2 ==> r[0] == c.title
  {
    (if ContainsIgnoringCase(c.title, partial) then [c.title] else [])
    + (if c.category.Some? && ContainsIgnoringCase(c.category.value, partial) then [c.category.value] else [])
  }

  function Candidates(rows: seq<Course>, partial: string): (r: seq<string>)
    ensures forall x :: x in r ==> ContainsIgnoringCase(x, partial)
  {
    if rows == [] then [] else CandidatesOf(rows[0], partial) + Candidates(rows[1..], partial)
  }

  lemma {:induction false} CandidatesSnoc(rows: seq<Course>, c: Course, partial: string)
    ensures Candidates(rows + [c], partial) == Candidates(rows, partial) + CandidatesOf(c, partial)
  {
    if rows == [] {
      assert [] + [c] == [c];
      assert [c][1..] == [];
      assert Candidates([c], partial) == CandidatesOf(c, partial) + Candidates([], partial);
    } else {
      var all := rows + [c];
      assert all[0] == rows[0] && all[1..] == rows[1..] + [c];
      assert Candidates(all, partial) == CandidatesOf(rows[0], partial) + Candidates(rows[1..] + [c], partial);
      CandidatesSnoc(rows[1..], c, partial);
      assert Candidates(rows, partial) == CandidatesOf(rows[0], partial) + Candidates(rows[1..], partial);
    }
  }

  /** Adding one course's candidates to the set: its title, then its category,
      each when it matches and is new. */
  lemma AddCourse(seen: seq<string>, c: Course, partial: string)
    ensures var t := if ContainsIgnoringCase(c.title, partial) && c.title !in seen then seen + [c.title] else seen;
      AddAll(seen, CandidatesOf(c, partial)) ==
        if c.category.Some? && ContainsIgnoringCase(c.category.value, partial) && c.category.value !in t
        then t + [c.category.value] else t
  {
    var a := if ContainsIgnoringCase(c.title, partial) then [c.title] else [];
    var b := if c.category.Some? && ContainsIgnoringCase(c.category.value, partial) then [c.category.value] else [];
    AddAllAppend(seen, a, b);
    assert CandidatesOf(c, partial) == a + b;
    if a != [] { assert a[1..] == []; }
    if b != [] { assert b[1..] == []; }
  }

  /** One more course extends the set by its new candidates. */
  lemma FillStep(rows: seq<Course>, i: nat, partial: string)
    requires i < |rows|
    ensures var seen := AddAll([], Candidates(rows[..i], partial));
      var c := rows[i];
      var t := if ContainsIgnoringCase(c.title, partial) && c.title !in seen then seen + [c.title] else seen;
      AddAll([], Candidates(rows[..i + 1], partial)) ==
        if c.category.Some? && ContainsIgnoringCase(c.category.value, partial) && c.category.value !in t
        then t + [c.category.value] else t
  {
    var c := rows[i];
    assert rows[..i + 1] == rows[..i] + [c];
    CandidatesSnoc(rows[..i], c, partial);
    AddAllAppend([], Candidates(rows[..i], partial), CandidatesOf(c, partial));
    AddCourse(AddAll([], Candidates(rows[..i], partial)), c, partial);
  }

  /** The rows the suggestion query returns: the first five courses, in table
      order, whose title or category contains the partial query. */
  function SuggestionRows(catalog: seq<Course>, partial: string): (r: seq<Course>)
    ensures |r| <= SuggestionLimit && IsSubseq(r, catalog)
    ensures forall c :: c in r ==> CandidatesOf(c, partial) != []
    ensures var all := Filter(catalog, (c: Course) => CandidatesOf(c, partial) != []);
      r <= all && |r| == if |all| < SuggestionLimit then |all| else SuggestionLimit
  {
    var all := Filter(catalog, (c: Course) => CandidatesOf(c, partial) != []);
    if |all| <= SuggestionLimit then all
    else
      PrefixOfSubseq(all, catalog, SuggestionLimit);
      assert forall c :: c in all[..SuggestionLimit] ==> c in all;
      all[..SuggestionLimit]
  }

  /** The suggestions for `partial`: nothing for blank or one-character input,
      otherwise the distinct candidates in first-insertion order, at most five. */
  function Suggestions(partial: string, catalog: Option<seq<Course>>): (r: seq<string>)
    ensures |r| <= SuggestionLimit
    ensures NoDups(r)
    ensures forall x :: x in r ==> ContainsIgnoringCase(x, partial)
    ensures AllSpace(partial) || |partial| < 2 ==> r == []
    ensures !AllSpace(partial) && |partial| >= 2 ==>
      var cands := Candidates(SuggestionRows(catalog.GetOr([]), partial), partial);
      var distinct := AddAll([], cands);
      r <= distinct && |r| == (if |distinct| < SuggestionLimit then |distinct| else SuggestionLimit) &&
      (forall x :: x in r ==> x in cands) &&
      (forall x :: x in cands ==> x in r || |r| == SuggestionLimit)
  {
    if AllSpace(partial) || |partial| < 2 then []
    else
      var seen := AddAll([], Candidates(SuggestionRows(catalog.GetOr([]), partial), partial));
      assert forall x :: x in Take(seen, SuggestionLimit) ==> x in seen;
      Take(seen, SuggestionLimit)
  }

  /** The suggestions keep first-insertion order: an earlier suggestion first
      appears earlier among the candidates. */
  lemma SuggestionsOrder(partial: string, catalog: seq<Course>, i: nat, j: nat)
    requires i < j < |Suggestions(partial, Some(catalog))|
    ensures var cands := Candidates(SuggestionRows(catalog, partial), partial);
      var r := Suggestions(partial, Some(catalog));
      r[i] in cands && r[j] in cands && FirstIndex(cands, r[i]) < FirstIndex(cands, r[j])
  {
    var cands := Candidates(SuggestionRows(catalog, partial), partial);
    var seen := AddAll([], cands);
    var r := Suggestions(partial, Some(catalog));
    assert r == Take(seen, SuggestionLimit);
    assert i < j < |seen| && r[i] == seen[i] && r[j] == seen[j];
    assert [] + cands == cands;
    AddAllFirstOccurrence([], cands, i, j);
  }

  /** When the first course of the table matches with both its title and a
      different category, those two lead the suggestions, title first. */
  lemma TitleBeforeCategory(c: Course, rest: seq<Course>, partial: string)
    requires |partial| >= 2 && !AllSpace(partial)
    requires ContainsIgnoringCase(c.title, partial)
    requires c.category.Some? && ContainsIgnoringCase(c.category.value, partial) && c.category.value != c.title
    ensures var r := Suggestions(partial, Some([c] + rest));
      |r| >= 2 && r[0] == c.title && r[1] == c.category.value
  {
    FirstRowLeads(c, rest, partial);
    PairLeads(c, SuggestionRows([c] + rest, partial), partial);
  }

  /** The two candidates of the first row open the insertion-ordered set. */
  lemma PairLeads(c: Course, rows: seq<Course>, partial: string)
    requires rows != [] && rows[0] == c
    requires ContainsIgnoringCase(c.title, partial)
    requires c.category.Some? && ContainsIgnoringCase(c.category.value, partial) && c.category.value != c.title
    ensures var d := AddAll([], Candidates(rows, partial)); |d| >= 2 && d[0] == c.title && d[1] == c.category.value
  {
    var pair := CandidatesOf(c, partial);
    assert pair == [c.title, c.category.value];
    var more := Candidates(rows[1..], partial);
    assert Candidates(rows, partial) == pair + more;
    AddAllAppend([], pair, more);
    AddCourse([], c, partial);
  }

  /** A matching first course is the first row of the suggestion query. */
  lemma FirstRowLeads(c: Course, rest: seq<Course>, partial: string)
    requires CandidatesOf(c, partial) != []
    ensures var rows := SuggestionRows([c] + rest, partial); rows != [] && rows[0] == c
  {
    var table := [c] + rest;
    assert table[0] == c && table[1..] == rest;
    var all := Filter(table, (d: Course) => CandidatesOf(d, partial) != []);
    assert all[0] == c;
  }

  /** The hook's state: the latest results and whether a search is running. */
  class Hook {
    var results: seq<Course>
    var loading: bool

    constructor ()
      ensures results == [] && !loading
    {
      results := [];
      loading := false;
    }

    /** `search(query)`: `delivered` says whether the invocation reached the
        function, `backend` is what the function sees, `progress` the
        progress table, `catalog` the courses table its embedded select joins,
        and `table` the courses the hook's own fallback query reads. `sent`
        is the request body, absent when nothing was sent. */
    method Search(query: string, user: Option<string>, progress: Option<seq<ProgressRow>>,
                  catalog: seq<Course>, delivered: bool, backend: SemanticSearch.Backend, table: Option<seq<Course>>)
      returns (found: seq<Course>, sent: Option<Request>)
      modifies this
      ensures found == results
      ensures sent.None? <==> AllSpace(query)
      ensures AllSpace(query) ==> found == [] && loading == old(loading)
      ensures !AllSpace(query) ==> !loading && found == Answer(query, delivered, backend, table)
      ensures sent.Some? ==> (sent.value.query == Trim(query) &&
        sent.value.profile == if user.Some? then Some(ProfileOf(user.value, progress, catalog)) else None)
    {
      if Trim(query) == [] {
        results := [];
        return [], None;
      }
      loading := true;
      var profile := if user.Some? then Some(ProfileOf(user.value, progress, catalog)) else None;
      sent := Some(Request(Trim(query), profile));
      var reply := SemanticSearch.Handle(Some(Trim(query)), backend);
      if delivered && reply.Found? {
        results := reply.courses;
      } else {
        results := SemanticSearch.KeywordFallback(table.GetOr([]), query);
      }
      found := results;
      loading := false;
    }

    /** `getSuggestions(partial)`. */
    method GetSuggestions(partial: string, catalog: Option<seq<Course>>) returns (r: seq<string>)
      ensures r == Suggestions(partial, catalog)
    {
      if Trim(partial) == [] || |partial| < 2 {
        return [];
      }
      var rows := SuggestionRows(catalog.GetOr([]), partial);
      var seen := FillSet(rows, partial);
      r := Take(seen, SuggestionLimit);
    }

    /** The `forEach` that fills the insertion-ordered set course by course. */
    method FillSet(rows: seq<Course>, partial: string) returns (seen: seq<string>)
      ensures seen == AddAll([], Candidates(rows, partial))
    {
      seen := [];
      var i := 0;
      while i < |rows|
        invariant 0 <= i <= |rows|
        invariant seen == AddAll([], Candidates(rows[..i], partial))
      {
        var c := rows[i];
        FillStep(rows, i, partial);
        if ContainsIgnoringCase(c.title, partial) && c.title !in seen {
          seen := seen + [c.title];
        }
        if c.category.Some? && ContainsIgnoringCase(c.category.value, partial) && c.category.value !in seen {
          seen := seen + [c.category.value];
        }
        i := i + 1;
      }
      assert rows[..|rows|] == rows;
    }
  }
}
