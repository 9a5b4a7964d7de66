/** The in-memory record store behind the HTTP routes of backend/main.py:
    two independent lists, submissions and exams, each with add, list-all
    and delete-by-id. The identifier that `generate_id` draws from `uuid4`
    is passed in by the caller. */
module Backend {
  import opened Models
  import opened Collections

  const SubmissionAdded: string := "Submission added"
  const SubmissionDeleted: string := "Submission deleted"
  const ExamAdded: string := "Exam added"
  const ExamDeleted: string := "Exam deleted"

  /** The body of an add route's reply: `{"message": ..., "data": entry}`. */
  datatype Added<T> = Added(message: string, data: T)

  function SubmissionId(s: Submission): string { s.id }
  function ExamId(e: Exam): string { e.id }

  /** No entry of `s` carries `id`. */
  predicate IdAbsent<T>(s: seq<T>, idOf: T -> string, id: string)
  {
    forall i :: 0 <= i < |s| ==> idOf(s[i]) != id
  }

  /** No two entries of `s` carry the same id. */
  ghost predicate UniqueIds<T>(s: seq<T>, idOf: T -> string)
  {
    forall i, j :: 0 <= i < j < |s| ==> idOf(s[i]) != idOf(s[j])
  }

  function IdIsNot<T>(idOf: T -> string, id: string): T -> bool
  {
    x => idOf(x) != id
  }

  /** The list comprehension of the delete routes: every entry whose id differs from `id`. */
  function RemoveId<T>(s: seq<T>, idOf: T -> string, id: string): (r: seq<T>)
    ensures IdAbsent(r, idOf, id)
    ensures forall i :: 0 <= i < |s| && idOf(s[i]) != id ==> s[i] in r
  {
    Filter(s, IdIsNot(idOf, id))
  }

  /** Delete keeps every other entry, with all its copies, in its original relative order. */
  lemma RemoveIdKeepsOthers<T>(s: seq<T>, idOf: T -> string, id: string, x: T)
    ensures IsSubsequence(RemoveId(s, idOf, id), s)
    ensures multiset(RemoveId(s, idOf, id))[x] == if idOf(x) == id then 0 else multiset(s)[x]
  {
    FilterIsSubsequence(s, IdIsNot(idOf, id));
    FilterMultiplicity(s, IdIsNot(idOf, id), x);
  }

  /** Deleting an id that no entry carries changes nothing (and is no error). */
  lemma RemoveAbsentId<T>(s: seq<T>, idOf: T -> string, id: string)
    requires IdAbsent(s, idOf, id)
    ensures RemoveId(s, idOf, id) == s
  {
    FilterKeepsAll(s, IdIsNot(idOf, id));
  }

  /** Deleting twice is deleting once. */
  lemma RemoveIdIdempotent<T>(s: seq<T>, idOf: T -> string, id: string)
    ensures RemoveId(RemoveId(s, idOf, id), idOf, id) == RemoveId(s, idOf, id)
  {
    RemoveAbsentId(RemoveId(s, idOf, id), idOf, id);
  }

  /** Adding an entry under a fresh id and then deleting that id restores the list. */
  lemma AddThenRemove<T>(s: seq<T>, idOf: T -> string, x: T)
    requires IdAbsent(s, idOf, idOf(x))
    ensures RemoveId(s + [x], idOf, idOf(x)) == s
  {
    var p := IdIsNot(idOf, idOf(x));
    FilterConcat(s, [x], p);
    FilterKeepsAll(s, p);
    assert Filter([x], p) == [];
  }

  /** Adding under a fresh id keeps ids unique. */
  lemma AddKeepsUnique<T>(s: seq<T>, idOf: T -> string, x: T)
    requires UniqueIds(s, idOf) && IdAbsent(s, idOf, idOf(x))
    ensures UniqueIds(s + [x], idOf)
  {
    var t := s + [x];
    forall i, j | 0 <= i < j < |t|
      ensures idOf(t[i]) != idOf(t[j])
    {
      assert t[i] == s[i];
      if j < |s| {
        assert t[j] == s[j];
      }
    }
  }

  /** Filtering a list with unique ids keeps them unique. */
  lemma {:induction false} FilterKeepsUnique<T>(s: seq<T>, idOf: T -> string, p: T -> bool)
    requires UniqueIds(s, idOf)
    ensures UniqueIds(Filter(s, p), idOf)
  {
    if s != [] {
      var tail := s[1..];
      assert UniqueIds(tail, idOf) by {
        forall i, j | 0 <= i < j < |tail|
          ensures idOf(tail[i]) != idOf(tail[j])
        {
          assert s[i + 1] == tail[i] && s[j + 1] == tail[j];
        }
      }
      FilterKeepsUnique(tail, idOf, p);
      var rest := Filter(tail, p);
      if p(s[0]) {
        var r := [s[0]] + rest;
        assert r == Filter(s, p);
        forall i, j | 0 <= i < j < |r|
          ensures idOf(r[i]) != idOf(r[j])
        {
          assert r[j] == rest[j - 1];
          if i == 0 {
            var m :| 0 <= m < |tail| && tail[m] == rest[j - 1];
            assert s[m + 1] == rest[j - 1];
          } else {
            assert r[i] == rest[i - 1];
          }
        }
      }
    }
  }

  /** With unique ids, deleting an id that is present removes exactly one entry. */
  lemma {:induction false} RemovePresentId<T>(s: seq<T>, idOf: T -> string, k: nat)
    requires UniqueIds(s, idOf) && k < |s|
    ensures |RemoveId(s, idOf, idOf(s[k]))| == |s| - 1
  {
    var id := idOf(s[k]);
    var p := IdIsNot(idOf, id);
    var before, after := s[..k], s[k + 1..];
    assert s == before + [s[k]] + after;
    FilterConcat(before + [s[k]], after, p);
    FilterConcat(before, [s[k]], p);
    forall i | 0 <= i < |before| ensures p(before[i]) {
      assert before[i] == s[i];
    }
    forall i | 0 <= i < |after| ensures p(after[i]) {
      assert after[i] == s[k + 1 + i];
    }
    FilterKeepsAll(before, p);
    FilterKeepsAll(after, p);
    assert Filter([s[k]], p) == [];
  }

  /** The two module-level lists `submissions_db` and `exams_db`. */
  class Database {
    var submissions: seq<Submission>
    var exams: seq<Exam>

    /** Both lists start empty when the process starts. */
    constructor ()
      ensures submissions == [] && exams == []
    {
      submissions := [];
      exams := [];
    }

    /** POST /submission/add: stores the payload under `newId`, whatever id
        the payload carried, appends it, and replies with the stored entry. */
    method AddSubmission(sub: Submission, newId: string) returns (reply: Added<Submission>)
      modifies this
      ensures submissions == old(submissions) + [sub.(id := newId)]
      ensures exams == old(exams)
      ensures reply == Added(SubmissionAdded, submissions[|submissions| - 1])
      ensures reply.data.id == newId
      ensures UniqueIds(old(submissions), SubmissionId) && IdAbsent(old(submissions), SubmissionId, newId)
              ==> UniqueIds(submissions, SubmissionId)
    {
      var entry := sub.(id := newId);
      submissions := submissions + [entry];
      reply := Added(SubmissionAdded, entry);
      if UniqueIds(old(submissions), SubmissionId) && IdAbsent(old(submissions), SubmissionId, newId) {
        AddKeepsUnique(old(submissions), SubmissionId, entry);
      }
    }

    /** GET /submission/all: every stored submission, in insertion order. */
    method GetSubmissions() returns (all: seq<Submission>)
      ensures all == submissions
    {
      all := submissions;
    }

    /** DELETE /submission/{id}: drops every entry with that id; an absent id is not an error. */
    method DeleteSubmission(id: string) returns (message: string)
      modifies this
      ensures submissions == RemoveId(old(submissions), SubmissionId, id)
      ensures exams == old(exams)
      ensures message == SubmissionDeleted
      ensures UniqueIds(old(submissions), SubmissionId) ==> UniqueIds(submissions, SubmissionId)
    {
      submissions := RemoveId(submissions, SubmissionId, id);
      message := SubmissionDeleted;
      if UniqueIds(old(submissions), SubmissionId) {
        FilterKeepsUnique(old(submissions), SubmissionId, IdIsNot(SubmissionId, id));
      }
    }

    /** POST /exam/add: stores the payload under `newId` and appends it. */
    method AddExam(exam: Exam, newId: string) returns (reply: Added<Exam>)
      modifies this
      ensures exams == old(exams) + [exam.(id := newId)]
      ensures submissions == old(submissions)
      ensures reply == Added(ExamAdded, exams[|exams| - 1])
      ensures reply.data.id == newId
      ensures UniqueIds(old(exams), ExamId) && IdAbsent(old(exams), ExamId, newId)
              ==> UniqueIds(exams, ExamId)
    {
      var entry := exam.(id := newId);
      exams := exams + [entry];
      reply := Added(ExamAdded, entry);
      if UniqueIds(old(exams), ExamId) && IdAbsent(old(exams), ExamId, newId) {
        AddKeepsUnique(old(exams), ExamId, entry);
      }
    }

    /** GET /exam/all: every stored exam, in insertion order. */
    method GetExams() returns (all: seq<Exam>)
      ensures all == exams
    {
      all := exams;
    }

    /** DELETE /exam/{id}: drops every entry with that id; an absent id is not an error. */
    method DeleteExam(id: string) returns (message: string)
      modifies this
      ensures exams == RemoveId(old(exams), ExamId, id)
      ensures submissions == old(submissions)
      ensures message == ExamDeleted
      ensures UniqueIds(old(exams), ExamId) ==> UniqueIds(exams, ExamId)
    {
      exams := RemoveId(exams, ExamId, id);
      message := ExamDeleted;
      if UniqueIds(old(exams), ExamId) {
        FilterKeepsUnique(old(exams), ExamId, IdIsNot(ExamId, id));
      }
    }
  }

  /** A client of the store: adding a submission under a fresh id and deleting
      the id the reply carries leaves both lists as they were. */
  method AddThenDeleteSubmission(db: Database, sub: Submission, newId: string)
    requires IdAbsent(db.submissions, SubmissionId, newId)
    modifies db
    ensures db.submissions == old(db.submissions) && db.exams == old(db.exams)
  {
    var reply := db.AddSubmission(sub, newId);
    var _ := db.DeleteSubmission(reply.data.id);
    AddThenRemove(old(db.submissions), SubmissionId, sub.(id := newId));
  }
}
