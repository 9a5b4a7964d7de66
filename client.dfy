/** The front end as a client of the record store: the checkbox beside a
    record (frontend/app.py:103-110, 201-208) deletes the record by its id and
    posts the rewritten record again, so the store issues it a fresh id. */
module Client {
  import opened Models
  import opened Backend
  import opened Dashboard

  /** Ticking or unticking a submission's box when its new state differs:
      the record leaves its place and reappears, rewritten, at the end of the
      list under `newId`; the exams are untouched. */
  method ToggleAndRepostSubmission(db: Database, item: Submission, ticked: bool, newId: string)
    requires ToggleSubmission(item, ticked).Some?
    modifies db
    ensures db.submissions
         == RemoveId(old(db.submissions), SubmissionId, item.id) + [ToggleSubmission(item, ticked).value.(id := newId)]
    ensures db.exams == old(db.exams)
  {
    var updated := ToggleSubmission(item, ticked).value;
    var _ := db.DeleteSubmission(item.id);
    var _ := db.AddSubmission(updated, newId);
  }

  /** The same for an exam's box. */
  method ToggleAndRepostExam(db: Database, item: Exam, ticked: bool, newId: string)
    requires ToggleExam(item, ticked).Some?
    modifies db
    ensures db.exams
         == RemoveId(old(db.exams), ExamId, item.id) + [ToggleExam(item, ticked).value.(id := newId)]
    ensures db.submissions == old(db.submissions)
  {
    var updated := ToggleExam(item, ticked).value;
    var _ := db.DeleteExam(item.id);
    var _ := db.AddExam(updated, newId);
  }
}
