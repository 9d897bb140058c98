/** The `useSearch` hook: the catalogue search page's query, built constraint
    by constraint from a text query and a set of filters, and the state the
    page keeps (courses, query, filters, loading). */
module CourseSearch {
  import opened Wrappers
  import opened Seqs
  import opened Text
  import opened Tables

  /** The keys of the `SearchFilters` object. */
  datatype FilterKey = Category | Level | Duration | Instructor

  /** A filter object: the keys present, with their values. */
  type Filters = map<FilterKey, string>

  /** Upper bounds of the short and medium duration buckets, in minutes. */
  const ShortMax: nat := 60
  const MediumMax: nat := 180

  /** One clause the query builder adds. */
  datatype Constraint =
    | TextLike(pattern: string)           // `title`, `description` or `instructor` contains it, any case
    | CategoryIs(category: string)
    | LevelIs(level: string)
    | InstructorIs(instructor: string)
    | AtMost(minutes: nat)
    | AtLeast(minutes: nat)

  predicate Like(column: Option<string>, pattern: string) {
    column.Some? && ContainsIgnoringCase(column.value, pattern)
  }

  predicate Satisfies(c: Course, k: Constraint) {
    match k
    case TextLike(p) => ContainsIgnoringCase(c.title, p) || Like(c.description, p) || Like(c.instructor, p)
    case CategoryIs(v) => c.category == Some(v)
    case LevelIs(v) => c.level == Some(v)
    case InstructorIs(v) => c.instructor == Some(v)
    case AtMost(m) => c.durationMinutes <= m
    case AtLeast(m) => c.durationMinutes >= m
  }

  /** A row comes back when it satisfies every clause. */
  predicate Admits(c: Course, query: seq<Constraint>) {
    forall k :: 0 <= k < |query| ==> Satisfies(c, query[k])
  }

  /** The filter's value, when it is present and truthy. */
  function Value(f: Filters, key: FilterKey): Option<string> {
    if key in f && f[key] != [] then Some(f[key]) else None
  }

  /** The duration buckets; an unknown value selects everything. */
  predicate InBucket(bucket: string, minutes: nat) {
    if bucket == "short" then minutes <= ShortMax
    else if bucket == "medium" then ShortMax < minutes <= MediumMax
    else if bucket == "long" then minutes > MediumMax
    else true
  }

  predicate TextOk(c: Course, text: string) {
    AllSpace(text) || ContainsIgnoringCase(c.title, text) || Like(c.description, text) || Like(c.instructor, text)
  }

  predicate ExactOk(c: Course, f: Filters) {
    (Value(f, Category).Some? ==> c.category == Value(f, Category))
    && (Value(f, Level).Some? ==> c.level == Value(f, Level))
    && (Value(f, Instructor).Some? ==> c.instructor == Value(f, Instructor))
  }

  predicate DurationOk(c: Course, f: Filters) {
    Value(f, Duration).Some? ==> InBucket(Value(f, Duration).value, c.durationMinutes)
  }

  /** What the page asks for: the text, when it is not blank, in the title,
      description or instructor; each set filter matched exactly; the
      duration in the chosen bucket. */
  predicate Wanted(c: Course, text: string, f: Filters) {
    TextOk(c, text) && ExactOk(c, f) && DurationOk(c, f)
  }

  /** A query extended by one clause admits the rows that satisfy both. */
  lemma AdmitsSnoc(query: seq<Constraint>, k: Constraint)
    ensures forall c :: Admits(c, query + [k]) <==> Admits(c, query) && Satisfies(c, k)
  {
    forall c ensures Admits(c, query + [k]) <==> Admits(c, query) && Satisfies(c, k) {
      if Admits(c, query) && Satisfies(c, k) {
        forall i | 0 <= i < |query + [k]| ensures Satisfies(c, (query + [k])[i]) {
          if i < |query| { assert (query + [k])[i] == query[i]; }
        }
      }
      if Admits(c, query + [k]) {
        assert Satisfies(c, (query + [k])[|query|]);
        forall i | 0 <= i < |query| ensures Satisfies(c, query[i]) {
          assert (query + [k])[i] == query[i];
        }
      }
    }
  }

  /** Every number of minutes falls in exactly one of the three buckets. */
  lemma BucketsPartition(m: nat)
    ensures InBucket("short", m) || InBucket("medium", m) || InBucket("long", m)
    ensures !(InBucket("short", m) && InBucket("medium", m))
    ensures !(InBucket("short", m) && InBucket("long", m))
    ensures !(InBucket("medium", m) && InBucket("long", m))
  {
  }

  /** With no filters and a blank query every course is wanted. */
  lemma NothingSetAdmitsAll(c: Course, text: string)
    requires AllSpace(text)
    ensures Wanted(c, text, map[])
  {
  }

  /** A filter that is absent or empty imposes nothing. */
  lemma UnsetFilterIgnored(c: Course, text: string, f: Filters, key: FilterKey)
    requires Value(f, key).None?
    ensures Wanted(c, text, f) == Wanted(c, text, f - {key})
  {
    assert forall k :: Value(f, k) == Value(f - {key}, k);
  }

  /** The rows the query returns, newest first. */
  function Results(table: seq<Course>, text: string, f: Filters): (r: seq<Course>)
    ensures SortedDesc(r, (c: Course) => c.createdAt)
    ensures forall c :: c in r <==> c in table && Wanted(c, text, f)
    ensures multiset(r) == multiset(Filter(table, (c: Course) => Wanted(c, text, f)))
  {
    var hits := Filter(table, (c: Course) => Wanted(c, text, f));
    var r := SortDesc(hits, (c: Course) => c.createdAt);
    assert forall c :: c in r <==> c in hits by {
      forall c ensures c in r <==> c in hits {
        assert c in r <==> c in multiset(r);
        assert c in hits <==> c in multiset(hits);
      }
    }
    r
  }

  /** The state of the hook. */
  class SearchHook {
    var courses: seq<Course>
    var loading: bool
    var searchQuery: string
    var filters: Filters

    constructor ()
      ensures courses == [] && !loading && searchQuery == [] && filters == map[]
    {
      courses := [];
      loading := false;
      searchQuery := [];
      filters := map[];
    }

    /** The clauses `searchCourses` chains onto the builder, in order. */
    static method BuildQuery(text: string, f: Filters) returns (query: seq<Constraint>)
      ensures forall c :: Admits(c, query) <==> Wanted(c, text, f)
    {
      query := [];
      if Trim(text) != [] {
        AdmitsSnoc(query, TextLike(text));
        query := query + [TextLike(text)];
      }
      query := AddExact(query, f);
      query := AddDuration(query, f);
    }

    /** The `eq` clauses of the category, level and instructor filters. */
    static method AddExact(query: seq<Constraint>, f: Filters) returns (q: seq<Constraint>)
      ensures forall c :: Admits(c, q) <==> Admits(c, query) && ExactOk(c, f)
    {
      q := query;
      if Value(f, Category).Some? {
        AdmitsSnoc(q, CategoryIs(Value(f, Category).value));
        q := q + [CategoryIs(Value(f, Category).value)];
      }
      if Value(f, Level).Some? {
        AdmitsSnoc(q, LevelIs(Value(f, Level).value));
        q := q + [LevelIs(Value(f, Level).value)];
      }
      if Value(f, Instructor).Some? {
        AdmitsSnoc(q, InstructorIs(Value(f, Instructor).value));
        q := q + [InstructorIs(Value(f, Instructor).value)];
      }
    }

    /** The `lte`/`gte` clauses of the duration bucket. */
    static method AddDuration(query: seq<Constraint>, f: Filters) returns (q: seq<Constraint>)
      ensures forall c :: Admits(c, q) <==> Admits(c, query) && DurationOk(c, f)
    {
      q := query;
      var d := Value(f, Duration);
      if d.Some? {
        if d.value == "short" {
          AdmitsSnoc(q, AtMost(ShortMax));
          q := q + [AtMost(ShortMax)];
        } else if d.value == "medium" {
          AdmitsSnoc(q, AtLeast(ShortMax + 1));
          q := q + [AtLeast(ShortMax + 1)];
          AdmitsSnoc(q, AtMost(MediumMax));
          q := q + [AtMost(MediumMax)];
        } else if d.value == "long" {
          AdmitsSnoc(q, AtLeast(MediumMax + 1));
          q := q + [AtLeast(MediumMax + 1)];
        }
      }
    }

    /** `searchCourses(text, f)` over the `courses` table (`None` when the query fails). */
    method SearchCourses(text: string, f: Filters, table: Option<seq<Course>>)
      modifies this
      ensures courses == (if table.Some? then Results(table.value, text, f) else [])
      ensures !loading && searchQuery == old(searchQuery) && filters == old(filters)
    {
      loading := true;
      var query := BuildQuery(text, f);
      if table.Some? {
        var rows := table.value;
        FilterExt(rows, (c: Course) => Admits(c, query), (c: Course) => Wanted(c, text, f));
        courses := SortDesc(Filter(rows, (c: Course) => Admits(c, query)), (c: Course) => c.createdAt);
      } else {
        courses := [];
      }
      loading := false;
    }

    /** `getAllCourses()`: the whole table, newest first. */
    method GetAllCourses(table: Option<seq<Course>>)
      modifies this
      ensures courses == (if table.Some? then SortDesc(table.value, (c: Course) => c.createdAt) else [])
      ensures !loading && searchQuery == old(searchQuery) && filters == old(filters)
    {
      loading := true;
      courses := if table.Some? then SortDesc(table.value, (c: Course) => c.createdAt) else [];
      loading := false;
    }

    /** `updateFilters(f)`: new filters, same query. */
    method UpdateFilters(f: Filters, table: Option<seq<Course>>)
      modifies this
      ensures filters == f && searchQuery == old(searchQuery) && !loading
      ensures courses == (if table.Some? then Results(table.value, old(searchQuery), f) else [])
    {
      filters := f;
      SearchCourses(searchQuery, f, table);
    }

    /** `updateSearch(text)`: new query, same filters. */
    method UpdateSearch(text: string, table: Option<seq<Course>>)
      modifies this
      ensures searchQuery == text && filters == old(filters) && !loading
      ensures courses == (if table.Some? then Results(table.value, text, old(filters)) else [])
    {
      searchQuery := text;
      SearchCourses(text, filters, table);
    }
  }

}
