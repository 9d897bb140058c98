/** The rows of the database tables the core reads and writes, and the join
    by course id that the embedded selects (`courses(...)`) and `find` perform. */
module Tables {
  import opened Wrappers
  import opened Seqs

  /** A row of `courses`; nullable text columns are `Option`s, the duration
      is taken as never null, and `createdAt` is the creation timestamp as a
      number. */
  datatype Course = Course(
    id: string,
    title: string,
    description: Option<string>,
    category: Option<string>,
    level: Option<string>,
    durationMinutes: nat,
    instructor: Option<string>,
    createdAt: int)

  /** A row of `course_progress`; timestamps are numbers. */
  datatype ProgressRow = ProgressRow(
    userId: string,
    courseId: string,
    percentage: int,
    isCompleted: bool,
    completedAt: Option<int>,
    lastWatchedAt: int,
    watchMinutes: nat)

  /** A row of `user_favorites`. */
  datatype FavoriteRow = FavoriteRow(userId: string, courseId: string)

  /** `catalog.find(c => c.id === id)`: the first course with that id. */
  function Find(catalog: seq<Course>, id: string): (r: Option<Course>)
    ensures r.Some? <==> exists k :: 0 <= k < |catalog| && catalog[k].id == id
    ensures r.Some? ==> r.value in catalog && r.value.id == id
    ensures r.Some? ==> exists i :: 0 <= i < |catalog| && catalog[i] == r.value &&
                                   forall j :: 0 <= j < i ==> catalog[j].id != id
  {
    if catalog == [] then None
    else if catalog[0].id == id then Some(catalog[0])
    else
      var r := Find(catalog[1..], id);
      assert forall k :: 1 <= k < |catalog| ==> catalog[k] == catalog[1..][k - 1];
      r
  }

  /** Course ids are the table's primary key. */
  predicate UniqueIds(catalog: seq<Course>) {
    forall i, j :: 0 <= i < j < |catalog| ==> catalog[i].id != catalog[j].id
  }

  /** With unique ids, looking a catalog course up by its id finds that course. */
  lemma FindOwnId(catalog: seq<Course>, k: nat)
    requires UniqueIds(catalog) && k < |catalog|
    ensures Find(catalog, catalog[k].id) == Some(catalog[k])
  {
    var r := Find(catalog, catalog[k].id);
    var i :| 0 <= i < |catalog| && catalog[i] == r.value &&
             forall j :: 0 <= j < i ==> catalog[j].id != catalog[k].id;
    assert i == k;
  }

  /** `find(...)?.category` kept by `filter(Boolean)`: the category of the
      course with that id, when there is such a course and its category is
      a non-empty string. */
  function CategoryOf(catalog: seq<Course>, courseId: string): (r: Option<string>)
    ensures r.Some? <==>
      var c := Find(catalog, courseId); c.Some? && c.value.category.Some? && c.value.category.value != []
    ensures r.Some? ==> r == Find(catalog, courseId).value.category
  {
    match Find(catalog, courseId)
    case Some(c) => if c.category.Some? && c.category.value != [] then c.category else None
    case None => None
  }

  /** The rows marked completed. */
  function CountCompleted(rows: seq<ProgressRow>): (n: nat)
    ensures n == |Filter(rows, (p: ProgressRow) => p.isCompleted)|
  {
    if rows == [] then 0 else (if rows[0].isCompleted then 1 else 0) + CountCompleted(rows[1..])
  }

  /** The rows started but not completed. */
  function CountStarted(rows: seq<ProgressRow>): (n: nat)
    ensures n == |Filter(rows, (p: ProgressRow) => !p.isCompleted && p.percentage > 0)|
  {
    if rows == [] then 0
    else (if !rows[0].isCompleted && rows[0].percentage > 0 then 1 else 0) + CountStarted(rows[1..])
  }

  /** A row is counted as completed or as in progress, never both. */
  lemma {:induction false} CountsBounded(rows: seq<ProgressRow>)
    ensures CountCompleted(rows) + CountStarted(rows) <= |rows|
  {
    if rows != [] {
      CountsBounded(rows[1..]);
    }
  }

  /** The minutes watched over the rows, a missing value counting as 0. */
  function WatchTime(rows: seq<ProgressRow>): nat {
    if rows == [] then 0 else rows[0].watchMinutes + WatchTime(rows[1..])
  }

  lemma {:induction false} WatchTimeAppend(a: seq<ProgressRow>, b: seq<ProgressRow>)
    ensures WatchTime(a + b) == WatchTime(a) + WatchTime(b)
  {
    if a == [] {
      assert a + b == b;
    } else {
      assert (a + b)[1..] == a[1..] + b;
      WatchTimeAppend(a[1..], b);
    }
  }
}
