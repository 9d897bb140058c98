/** The `useCertificates` hook: the user's certificates joined with their
    courses, and the data the printable certificate shows. */
module Certificates {
  import opened Wrappers
  import Durations

  const MissingTitle: string := "Curso não encontrado"
  const DefaultStudent: string := "Estudante"

  /** A row of `certificates`, as selected. */
  datatype CertificateRow = CertificateRow(id: string, courseId: string, number: string, issuedAt: int)

  /** The course columns the certificate page reads. */
  datatype CourseSummary = CourseSummary(
    id: string, title: string, instructor: string, durationMinutes: nat, category: string)

  /** A certificate with its course. */
  datatype Certificate = Certificate(row: CertificateRow, course: CourseSummary)

  /** The stand-in for a course the second query did not return. */
  function Placeholder(courseId: string): (c: CourseSummary)
    ensures c.id == courseId && c.title == MissingTitle && c.durationMinutes == 0
  {
    CourseSummary(courseId, MissingTitle, "", 0, "")
  }

  /** `coursesData?.find(c => c.id === cert.course_id)`. */
  function FindSummary(courses: seq<CourseSummary>, id: string): (r: Option<CourseSummary>)
    ensures r.Some? <==> exists k :: 0 <= k < |courses| && courses[k].id == id
    ensures r.Some? ==> exists i :: 0 <= i < |courses| && courses[i] == r.value && r.value.id == id &&
                                   forall j :: 0 <= j < i ==> courses[j].id != id
  {
    if courses == [] then None
    else if courses[0].id == id then Some(courses[0])
    else
      var r := FindSummary(courses[1..], id);
      assert forall k :: 1 <= k < |courses| ==> courses[k] == courses[1..][k - 1];
      r
  }

  /** One certificate with the first course of its id, or the placeholder. */
  function WithCourse(courses: Option<seq<CourseSummary>>, cert: CertificateRow): (r: Certificate)
    ensures r.row == cert && r.course.id == cert.courseId
    ensures courses.Some? && FindSummary(courses.value, cert.courseId).Some? ==>
      r.course == FindSummary(courses.value, cert.courseId).value
    ensures (courses.None? || FindSummary(courses.value, cert.courseId).None?) ==>
      r.course == Placeholder(cert.courseId)
  {
    var found := if courses.Some? then FindSummary(courses.value, cert.courseId) else None;
    Certificate(cert, found.GetOr(Placeholder(cert.courseId)))
  }

  /** `certificatesWithCourses`: one entry per row, in row order. */
  function Joined(certs: seq<CertificateRow>, courses: Option<seq<CourseSummary>>): (r: seq<Certificate>)
    ensures |r| == |certs|
    ensures forall k :: 0 <= k < |r| ==> r[k] == WithCourse(courses, certs[k])
  {
    seq(|certs|, k requires 0 <= k < |certs| => WithCourse(courses, certs[k]))
  }

  /** Every entry keeps its row and carries a course of that row's id; a
      course the query did not return shows as "Curso não encontrado". */
  lemma JoinedCourses(certs: seq<CertificateRow>, courses: Option<seq<CourseSummary>>, k: nat)
    requires k < |certs|
    ensures var e := Joined(certs, courses)[k];
      e.row == certs[k] && e.course.id == certs[k].courseId &&
      (courses.Some? && (exists j :: 0 <= j < |courses.value| && courses.value[j].id == certs[k].courseId) ==>
        e.course in courses.value) &&
      (courses.None? || (forall j :: 0 <= j < |courses.value| ==> courses.value[j].id != certs[k].courseId) ==>
        e.course.title == MissingTitle && e.course.durationMinutes == 0)
  {
  }

  /** The certificate's duration text: hours and minutes, always both. */
  function DurationText(c: Certificate): (r: string)
    ensures Durations.ReadDuration(r) == Some(c.course.durationMinutes)
    ensures exists h: nat, m: nat ::
      m < Durations.MinutesPerHour && h * Durations.MinutesPerHour + m == c.course.durationMinutes &&
      r == Durations.HoursAndMinutes(h, m)
  {
    Durations.ReadFull(c.course.durationMinutes);
    Durations.Full(c.course.durationMinutes)
  }

  /** The student's name on the certificate: the display name, or "Estudante". */
  function StudentName(displayName: Option<string>): (r: string)
    ensures displayName.Some? && displayName.value != [] ==> r == displayName.value
    ensures displayName.None? || displayName.value == [] ==> r == DefaultStudent
  {
    if displayName.Some? && displayName.value != [] then displayName.value else DefaultStudent
  }

  /** The hook's state. */
  class CertificatesHook {
    var certificates: seq<Certificate>
    var loading: bool

    constructor ()
      ensures certificates == [] && loading
    {
      certificates := [];
      loading := true;
    }

    /** `fetchCertificates()`: `certsFailed`/`coursesFailed` are the two
        queries' errors and `certsData`/`coursesData` their rows. */
    method FetchCertificates(user: Option<string>, certsFailed: bool, certsData: Option<seq<CertificateRow>>,
                             coursesFailed: bool, coursesData: Option<seq<CourseSummary>>)
      modifies this
      ensures !loading
      ensures user.None? ==> certificates == []
      ensures user.Some? && certsFailed ==> certificates == old(certificates)
      ensures user.Some? && !certsFailed && (certsData.None? || certsData.value == []) ==> certificates == []
      ensures user.Some? && !certsFailed && certsData.Some? && certsData.value != [] ==>
        certificates == (if coursesFailed then old(certificates) else Joined(certsData.value, coursesData))
    {
      if user.None? {
        certificates := [];
        loading := false;
        return;
      }
      if certsFailed {
        loading := false;
        return;
      }
      if certsData.None? || |certsData.value| == 0 {
        certificates := [];
        loading := false;
        return;
      }
      if !coursesFailed {
        certificates := Joined(certsData.value, coursesData);
      }
      loading := false;
    }
  }
}
