/** The two record kinds that the back end stores and the front end renders
    (backend/models.py, plus the `id` key the back end adds), and the time
    values the front end derives from their ISO date strings. */
module Models {

  /** A point in time: whole microseconds since a fixed midnight, in the
      naive local time that `datetime.fromisoformat` and `datetime.now` use. */
  type Instant = int

  /** A calendar date, as a number of days since the same midnight. */
  type Day = int

  const MicrosPerSecond: int := 1_000_000
  const SecondsPerDay: int := 86_400
  const MicrosPerDay: int := 86_400_000_000

  /** The calendar date of an instant (`datetime.date()`): the day whose
      midnight is the last one at or before `t`. */
  function DayOf(t: Instant): (d: Day)
    ensures d * MicrosPerDay <= t < (d + 1) * MicrosPerDay
  {
    t / MicrosPerDay
  }

  // Status and type values as the forms offer them; the store itself accepts any string.
  const Pending: string := "pending"
  const Completed: string := "completed"
  const Upcoming: string := "upcoming"
  const Written: string := "written"
  const Practical: string := "practical"

  /** A stored submission: the payload fields plus the generated `id`. */
  datatype Submission = Submission(
    id: string,
    title: string,
    subject: string,
    deadline: Instant,
    description: string,
    status: string)

  /** A stored exam; `kind` is the record's `type` key. */
  datatype Exam = Exam(
    id: string,
    title: string,
    subject: string,
    date: Instant,
    description: string,
    status: string,
    kind: string)

  /** A submission not yet done, as the summary tab tests it. */
  predicate IsPendingSubmission(s: Submission) { s.status == Pending }

  /** An exam not yet done, as the summary tab tests it. */
  predicate IsUpcomingExam(e: Exam) { e.status == Upcoming }
}
