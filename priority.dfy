/** The "Sorted by Priority" list of the summary tab in frontend/app.py: a row
    with its score for every pending submission and every upcoming exam,
    appended by two loops, then shown highest score first. */
module Priority {
  import opened Models
  import opened Collections
  import opened Deadlines

  /** One row of "Sorted by Priority": `(title, subject, date, score)`. */
  datatype PriorityItem = PriorityItem(title: string, subject: string, date: Instant, score: nat)

  function SubmissionItem(s: Submission, today: Day): PriorityItem
  {
    PriorityItem(s.title, s.subject, s.deadline, Score(s.deadline, s.description, today))
  }

  function ExamItem(e: Exam, today: Day): PriorityItem
  {
    PriorityItem(e.title, e.subject, e.date, Score(e.date, e.description, today))
  }

  function SubmissionItemOn(today: Day): Submission -> PriorityItem { s => SubmissionItem(s, today) }
  function ExamItemOn(today: Day): Exam -> PriorityItem { e => ExamItem(e, today) }

  /** The rows of the pending submissions among `subs`, in list order. */
  function PendingRows(subs: seq<Submission>, today: Day): seq<PriorityItem>
  {
    Map(Filter(subs, IsPendingSubmission), SubmissionItemOn(today))
  }

  /** The rows of the upcoming exams among `exams`, in list order. */
  function UpcomingRows(exams: seq<Exam>, today: Day): seq<PriorityItem>
  {
    Map(Filter(exams, IsUpcomingExam), ExamItemOn(today))
  }

  /** `priority_data`: a row per pending submission, then a row per upcoming exam. */
  function PriorityItems(subs: seq<Submission>, exams: seq<Exam>, today: Day): seq<PriorityItem>
  {
    PendingRows(subs, today) + UpcomingRows(exams, today)
  }

  /** One turn of the first loop keeps `out` equal to `items` plus the rows so far. */
  lemma PendingRowsStep(items: seq<PriorityItem>, out: seq<PriorityItem>, subs: seq<Submission>, i: nat, today: Day)
    requires i < |subs|
    requires out == items + PendingRows(subs[..i], today)
    ensures (if IsPendingSubmission(subs[i]) then out + [SubmissionItem(subs[i], today)] else out)
         == items + PendingRows(subs[..i + 1], today)
  {
    TakeSnoc(subs, i);
    MapFilterSnoc(subs[..i], subs[i], IsPendingSubmission, SubmissionItemOn(today));
  }

  /** One turn of the second loop keeps `out` equal to `items` plus the rows so far. */
  lemma UpcomingRowsStep(items: seq<PriorityItem>, out: seq<PriorityItem>, exams: seq<Exam>, j: nat, today: Day)
    requires j < |exams|
    requires out == items + UpcomingRows(exams[..j], today)
    ensures (if IsUpcomingExam(exams[j]) then out + [ExamItem(exams[j], today)] else out)
         == items + UpcomingRows(exams[..j + 1], today)
  {
    TakeSnoc(exams, j);
    MapFilterSnoc(exams[..j], exams[j], IsUpcomingExam, ExamItemOn(today));
  }

  /** The first loop, over `submissions`: appends a row per pending submission. */
  method AppendPendingRows(items: seq<PriorityItem>, subs: seq<Submission>, today: Day)
    returns (out: seq<PriorityItem>)
    ensures out == items + PendingRows(subs, today)
  {
    out := items;
    for i := 0 to |subs|
      invariant out == items + PendingRows(subs[..i], today)
    {
      PendingRowsStep(items, out, subs, i, today);
      if IsPendingSubmission(subs[i]) {
        out := out + [SubmissionItem(subs[i], today)];
      }
    }
    assert subs[..|subs|] == subs;
  }

  /** The second loop, over `exams`: appends a row per upcoming exam. */
  method AppendUpcomingRows(items: seq<PriorityItem>, exams: seq<Exam>, today: Day)
    returns (out: seq<PriorityItem>)
    ensures out == items + UpcomingRows(exams, today)
  {
    out := items;
    for j := 0 to |exams|
      invariant out == items + UpcomingRows(exams[..j], today)
    {
      UpcomingRowsStep(items, out, exams, j, today);
      if IsUpcomingExam(exams[j]) {
        out := out + [ExamItem(exams[j], today)];
      }
    }
    assert exams[..|exams|] == exams;
  }

  /** `priority_data`, built by the two loops in turn. */
  method BuildPriorityList(subs: seq<Submission>, exams: seq<Exam>, today: Day)
    returns (items: seq<PriorityItem>)
    ensures items == PriorityItems(subs, exams, today)
  {
    items := AppendPendingRows([], subs, today);
    items := AppendUpcomingRows(items, exams, today);
  }

  /** The first loop's rows are exactly those of the pending submissions. */
  lemma PendingRowsMembership(subs: seq<Submission>, today: Day)
    ensures forall it :: it in PendingRows(subs, today) <==>
      exists s :: s in subs && s.status == Pending && it == SubmissionItem(s, today)
  {
    var ps := Filter(subs, IsPendingSubmission);
    var rows := PendingRows(subs, today);
    forall it | it in rows
      ensures exists s :: s in subs && s.status == Pending && it == SubmissionItem(s, today)
    {
      var k :| 0 <= k < |rows| && rows[k] == it;
      assert rows[k] == SubmissionItem(ps[k], today) && ps[k] in subs;
    }
    forall s | s in subs && s.status == Pending
      ensures SubmissionItem(s, today) in rows
    {
      var i :| 0 <= i < |subs| && subs[i] == s;
      assert IsPendingSubmission(subs[i]);
      var k :| 0 <= k < |ps| && ps[k] == s;
      assert rows[k] == SubmissionItem(s, today);
    }
  }

  /** The second loop's rows are exactly those of the upcoming exams. */
  lemma UpcomingRowsMembership(exams: seq<Exam>, today: Day)
    ensures forall it :: it in UpcomingRows(exams, today) <==>
      exists e :: e in exams && e.status == Upcoming && it == ExamItem(e, today)
  {
    var ue := Filter(exams, IsUpcomingExam);
    var rows := UpcomingRows(exams, today);
    forall it | it in rows
      ensures exists e :: e in exams && e.status == Upcoming && it == ExamItem(e, today)
    {
      var k :| 0 <= k < |rows| && rows[k] == it;
      assert rows[k] == ExamItem(ue[k], today) && ue[k] in exams;
    }
    forall e | e in exams && e.status == Upcoming
      ensures ExamItem(e, today) in rows
    {
      var i :| 0 <= i < |exams| && exams[i] == e;
      assert IsUpcomingExam(exams[i]);
      var k :| 0 <= k < |ue| && ue[k] == e;
      assert rows[k] == ExamItem(e, today);
    }
  }

  /** The list holds a row for each pending submission and each upcoming exam and
      nothing else: no completed record contributes. */
  lemma PriorityItemsContents(subs: seq<Submission>, exams: seq<Exam>, today: Day)
    ensures |PriorityItems(subs, exams, today)|
            == |Filter(subs, IsPendingSubmission)| + |Filter(exams, IsUpcomingExam)|
    ensures forall it :: it in PriorityItems(subs, exams, today) <==>
      (exists s :: s in subs && s.status == Pending && it == SubmissionItem(s, today)) ||
      (exists e :: e in exams && e.status == Upcoming && it == ExamItem(e, today))
  {
    PendingRowsMembership(subs, today);
    UpcomingRowsMembership(exams, today);
  }

  /** The sort key of `sorted(priority_data, key=score, reverse=True)`: Python's
      reversed sort is stable, so it equals a stable ascending sort on `-score`. */
  function NegatedScore(it: PriorityItem): int { -(it.score as int) }

  /** "Sorted by Priority": the rows in display order. */
  function PriorityView(items: seq<PriorityItem>): seq<PriorityItem>
  {
    SortBy(items, NegatedScore)
  }

  function HasScore(k: int): PriorityItem -> bool { (it: PriorityItem) => it.score == k }

  /** The display holds the same rows, highest score first. */
  lemma PriorityViewOrdered(items: seq<PriorityItem>)
    ensures multiset(PriorityView(items)) == multiset(items)
    ensures forall i, j :: 0 <= i < j < |PriorityView(items)| ==>
      PriorityView(items)[i].score >= PriorityView(items)[j].score
  {
    var view := PriorityView(items);
    SortByPermutation(items, NegatedScore);
    SortBySorted(items, NegatedScore);
    forall i, j | 0 <= i < j < |view|
      ensures view[i].score >= view[j].score
    {
      assert NegatedScore(view[i]) <= NegatedScore(view[j]);
    }
  }

  /** Rows with equal scores keep the order in which they were appended
      (Python's sort is stable, also with `reverse=True`). */
  lemma PriorityViewStable(items: seq<PriorityItem>, k: int)
    ensures Filter(PriorityView(items), HasScore(k)) == Filter(items, HasScore(k))
  {
    var view := PriorityView(items);
    assert Filter(view, KeyIs(NegatedScore, -k)) == Filter(items, KeyIs(NegatedScore, -k)) by {
      SortByStable(items, NegatedScore, -k);
    }
    assert Filter(view, HasScore(k)) == Filter(view, KeyIs(NegatedScore, -k)) by {
      FilterCongruent(view, HasScore(k), KeyIs(NegatedScore, -k));
    }
    assert Filter(items, HasScore(k)) == Filter(items, KeyIs(NegatedScore, -k)) by {
      FilterCongruent(items, HasScore(k), KeyIs(NegatedScore, -k));
    }
  }
}
