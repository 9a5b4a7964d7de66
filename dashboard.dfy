/** The list logic of the Streamlit dashboard in frontend/app.py: the status
    and type filters of the two tabs, the checkbox rewrite of a record's
    status, the per-subject counts behind the pie charts, the priority list
    and its ordering, and the sorted upcoming lists. */
module Dashboard {
  import opened Models
  import opened Collections
  import opened Deadlines

  /** The filter choice that lets every record through. */
  const All: string := "All"

  // ---------------------------------------------------------------- filters

  function SubmissionPasses(statusFilter: string): Submission -> bool
  {
    (s: Submission) => statusFilter == All || s.status == statusFilter
  }

  function ExamPasses(statusFilter: string, kindFilter: string): Exam -> bool
  {
    (e: Exam) => (statusFilter == All || e.status == statusFilter) && (kindFilter == All || e.kind == kindFilter)
  }

  /** The submissions tab's list under the "Filter by Status" choice. */
  function FilterSubmissions(data: seq<Submission>, statusFilter: string): (r: seq<Submission>)
    ensures statusFilter == All ==> r == data
    ensures statusFilter != All ==> forall s :: s in r <==> s in data && s.status == statusFilter
  {
    var p := SubmissionPasses(statusFilter);
    if statusFilter == All then FilterKeepsAll(data, p); Filter(data, p) else Filter(data, p)
  }

  /** The exams tab's list under the status and type choices. */
  function FilterExams(data: seq<Exam>, statusFilter: string, kindFilter: string): (r: seq<Exam>)
    ensures statusFilter == All && kindFilter == All ==> r == data
    ensures forall e :: e in r <==> e in data && (statusFilter == All || e.status == statusFilter)
                                              && (kindFilter == All || e.kind == kindFilter)
  {
    var p := ExamPasses(statusFilter, kindFilter);
    if statusFilter == All && kindFilter == All then FilterKeepsAll(data, p); Filter(data, p)
    else Filter(data, p)
  }

  /** Both filters keep the list order and every copy of what they keep. */
  lemma FiltersKeepOrder(subs: seq<Submission>, exams: seq<Exam>, statusFilter: string, kindFilter: string,
                         s: Submission, e: Exam)
    ensures IsSubsequence(FilterSubmissions(subs, statusFilter), subs)
    ensures IsSubsequence(FilterExams(exams, statusFilter, kindFilter), exams)
    ensures multiset(FilterSubmissions(subs, statusFilter))[s]
            == if statusFilter == All || s.status == statusFilter then multiset(subs)[s] else 0
    ensures multiset(FilterExams(exams, statusFilter, kindFilter))[e]
            == if (statusFilter == All || e.status == statusFilter) && (kindFilter == All || e.kind == kindFilter)
               then multiset(exams)[e] else 0
  {
    FilterIsSubsequence(subs, SubmissionPasses(statusFilter));
    FilterIsSubsequence(exams, ExamPasses(statusFilter, kindFilter));
    FilterMultiplicity(subs, SubmissionPasses(statusFilter), s);
    FilterMultiplicity(exams, ExamPasses(statusFilter, kindFilter), e);
  }

  // ---------------------------------------------------------------- status toggle

  /** The checkbox beside a submission: ticked when its status is "completed".
      When the box's new state differs, the record is re-posted with only its
      status replaced; otherwise nothing is sent. */
  function ToggleSubmission(item: Submission, ticked: bool): (r: Option<Submission>)
    ensures r.Some? <==> ticked != (item.status == Completed)
    ensures r.Some? ==> r.value.status == (if ticked then Completed else Pending)
    ensures r.Some? ==> r.value.(status := item.status) == item
  {
    if ticked == (item.status == Completed) then None
    else Some(item.(status := if ticked then Completed else Pending))
  }

  /** The checkbox beside an exam, with "upcoming" as the unticked status. */
  function ToggleExam(item: Exam, ticked: bool): (r: Option<Exam>)
    ensures r.Some? <==> ticked != (item.status == Completed)
    ensures r.Some? ==> r.value.status == (if ticked then Completed else Upcoming)
    ensures r.Some? ==> r.value.(status := item.status) == item
  {
    if ticked == (item.status == Completed) then None
    else Some(item.(status := if ticked then Completed else Upcoming))
  }

  /** Ticking and then unticking (or the reverse) restores a record whose status
      was one of the two its form offers. */
  lemma ToggleRoundTrip(s: Submission, e: Exam, ticked: bool)
    requires s.status == Pending || s.status == Completed
    requires e.status == Upcoming || e.status == Completed
    ensures ToggleSubmission(s, ticked).Some? ==> ToggleSubmission(ToggleSubmission(s, ticked).value, !ticked) == Some(s)
    ensures ToggleExam(e, ticked).Some? ==> ToggleExam(ToggleExam(e, ticked).value, !ticked) == Some(e)
  {
  }

  // ---------------------------------------------------------------- subject counts

  /** `counts[key] += 1` on a `defaultdict(int)`. */
  function Bump(counts: map<string, nat>, key: string): map<string, nat>
  {
    counts[key := (if key in counts then counts[key] else 0) + 1]
  }

  /** The sum of the counts in a map. */
  ghost function Total(m: map<string, nat>): nat
    decreases |m|
  {
    if m == map[] then 0
    else
      assert exists k :: k in m by {
        var k :| k in m.Keys;
      }
      var k :| k in m;
      assert |(m - {k}).Keys| < |m.Keys| by {
        assert (m - {k}).Keys == m.Keys - {k};
      }
      m[k] + Total(m - {k})
  }

  /** Any key can be taken out first. */
  lemma TotalRemove(m: map<string, nat>, k: string)
    requires k in m
    ensures Total(m) == m[k] + Total(m - {k})
    decreases |m|
  {
    var j :| j in m && Total(m) == m[j] + Total(m - {j});
    if j != k {
      assert (m - {j}).Keys == m.Keys - {j};
      assert (m - {k}).Keys == m.Keys - {k};
      TotalRemove(m - {j}, k);
      TotalRemove(m - {k}, j);
      assert m - {j} - {k} == m - {k} - {j};
    }
  }

  lemma TotalBump(m: map<string, nat>, key: string)
    ensures Total(Bump(m, key)) == Total(m) + 1
  {
    var b := Bump(m, key);
    TotalRemove(b, key);
    if key in m {
      TotalRemove(m, key);
      assert b - {key} == m - {key};
    } else {
      assert b - {key} == m;
    }
  }

  /** The subjects of the records that `keep` selects, in list order. */
  function SubjectsOf<T>(items: seq<T>, keep: T -> bool, subjectOf: T -> string): seq<string>
  {
    Map(Filter(items, keep), subjectOf)
  }

  /** `counts` holds, for each subject occurring in `subjects`, how often it occurs, and nothing else. */
  ghost predicate Tallies(counts: map<string, nat>, subjects: multiset<string>)
  {
    forall k :: (k in counts <==> k in subjects) && (k in counts ==> counts[k] == subjects[k])
  }

  lemma BumpTallies(counts: map<string, nat>, subjects: multiset<string>, key: string)
    requires Tallies(counts, subjects)
    ensures Tallies(Bump(counts, key), subjects + multiset{key})
  {
  }

  /** Counting one more record keeps `counts` a tally of the selected subjects. */
  lemma TalliesStep<T>(prefix: seq<T>, x: T, keep: T -> bool, subjectOf: T -> string, counts: map<string, nat>)
    requires Tallies(counts, multiset(SubjectsOf(prefix, keep, subjectOf)))
    ensures Tallies(if keep(x) then Bump(counts, subjectOf(x)) else counts,
                    multiset(SubjectsOf(prefix + [x], keep, subjectOf)))
  {
    var before := SubjectsOf(prefix, keep, subjectOf);
    MapFilterSnoc(prefix, x, keep, subjectOf);
    if keep(x) {
      BumpTallies(counts, multiset(before), subjectOf(x));
    }
  }

  /** Counting one more record adds one to the total exactly when it is selected. */
  lemma TotalStep<T>(prefix: seq<T>, x: T, keep: T -> bool, subjectOf: T -> string, counts: map<string, nat>)
    requires Total(counts) == |Filter(prefix, keep)|
    ensures Total(if keep(x) then Bump(counts, subjectOf(x)) else counts) == |Filter(prefix + [x], keep)|
  {
    FilterConcat(prefix, [x], keep);
    assert Filter([x], keep) == if keep(x) then [x] else [];
    if keep(x) {
      TotalBump(counts, subjectOf(x));
    }
  }

  /** The counting loop behind each pie chart: for every record that `keep`
      selects, add one to its subject's count. */
  method CountBySubject<T>(items: seq<T>, keep: T -> bool, subjectOf: T -> string)
    returns (counts: map<string, nat>)
    ensures Tallies(counts, multiset(SubjectsOf(items, keep, subjectOf)))
    ensures Total(counts) == |Filter(items, keep)|
  {
    counts := map[];
    for i := 0 to |items|
      invariant Tallies(counts, multiset(SubjectsOf(items[..i], keep, subjectOf)))
      invariant Total(counts) == |Filter(items[..i], keep)|
    {
      TakeSnoc(items, i);
      TalliesStep(items[..i], items[i], keep, subjectOf, counts);
      TotalStep(items[..i], items[i], keep, subjectOf, counts);
      if keep(items[i]) {
        counts := Bump(counts, subjectOf(items[i]));
      }
    }
    assert items[..|items|] == items;
  }

  function SubmissionSubject(s: Submission): string { s.subject }
  function ExamSubject(e: Exam): string { e.subject }

  /** `pending_subjects`: pending submissions per subject. */
  method PendingSubjectCounts(subs: seq<Submission>) returns (counts: map<string, nat>)
    ensures Tallies(counts, multiset(SubjectsOf(subs, IsPendingSubmission, SubmissionSubject)))
    ensures Total(counts) == |Filter(subs, IsPendingSubmission)|
  {
    counts := CountBySubject(subs, IsPendingSubmission, SubmissionSubject);
  }

  /** `upcoming_subjects`: upcoming exams per subject. */
  method UpcomingSubjectCounts(exams: seq<Exam>) returns (counts: map<string, nat>)
    ensures Tallies(counts, multiset(SubjectsOf(exams, IsUpcomingExam, ExamSubject)))
    ensures Total(counts) == |Filter(exams, IsUpcomingExam)|
  {
    counts := CountBySubject(exams, IsUpcomingExam, ExamSubject);
  }

  // ---------------------------------------------------------------- upcoming lists

  /** The "Upcoming Submissions" list: the upcoming submissions sorted by deadline. */
  function SubmissionsByDeadline(subs: seq<Submission>, today: Day): seq<Submission>
  {
    SortBy(UpcomingSubmissions(subs, today), DeadlineOf)
  }

  /** The "Upcoming Exams" list: the upcoming exams sorted by date. */
  function ExamsByDate(exams: seq<Exam>, today: Day): seq<Exam>
  {
    SortBy(UpcomingExams(exams, today), DateOf)
  }

  /** The upcoming submissions list shows exactly the pending submissions dated
      today or later, earliest first; records with the same deadline keep their
      order in `upcoming_subs`. */
  lemma SubmissionsByDeadlineSpec(subs: seq<Submission>, today: Day)
    ensures multiset(SubmissionsByDeadline(subs, today)) == multiset(UpcomingSubmissions(subs, today))
    ensures forall s :: s in SubmissionsByDeadline(subs, today) <==> s in subs && SubmissionIsUpcoming(s, today)
    ensures forall i, j :: 0 <= i < j < |SubmissionsByDeadline(subs, today)| ==>
      SubmissionsByDeadline(subs, today)[i].deadline <= SubmissionsByDeadline(subs, today)[j].deadline
    ensures forall t :: Filter(SubmissionsByDeadline(subs, today), KeyIs(DeadlineOf, t))
                     == Filter(UpcomingSubmissions(subs, today), KeyIs(DeadlineOf, t))
  {
    var up := UpcomingSubmissions(subs, today);
    var view := SubmissionsByDeadline(subs, today);
    SortByPermutation(up, DeadlineOf);
    SortBySorted(up, DeadlineOf);
    forall s
      ensures s in view <==> s in subs && SubmissionIsUpcoming(s, today)
    {
      assert s in view <==> s in multiset(view);
      assert s in up <==> s in multiset(up);
    }
    forall t
      ensures Filter(view, KeyIs(DeadlineOf, t)) == Filter(up, KeyIs(DeadlineOf, t))
    {
      SortByStable(up, DeadlineOf, t);
    }
  }

  /** The upcoming exams list shows exactly the upcoming exams dated today or
      later, earliest first; exams with the same date keep their order in
      `upcoming_exams`. */
  lemma ExamsByDateSpec(exams: seq<Exam>, today: Day)
    ensures multiset(ExamsByDate(exams, today)) == multiset(UpcomingExams(exams, today))
    ensures forall e :: e in ExamsByDate(exams, today) <==> e in exams && ExamIsUpcoming(e, today)
    ensures forall i, j :: 0 <= i < j < |ExamsByDate(exams, today)| ==>
      ExamsByDate(exams, today)[i].date <= ExamsByDate(exams, today)[j].date
    ensures forall t :: Filter(ExamsByDate(exams, today), KeyIs(DateOf, t))
                     == Filter(UpcomingExams(exams, today), KeyIs(DateOf, t))
  {
    var up := UpcomingExams(exams, today);
    var view := ExamsByDate(exams, today);
    SortByPermutation(up, DateOf);
    SortBySorted(up, DateOf);
    forall e
      ensures e in view <==> e in exams && ExamIsUpcoming(e, today)
    {
      assert e in view <==> e in multiset(view);
      assert e in up <==> e in multiset(up);
    }
    forall t
      ensures Filter(view, KeyIs(DateOf, t)) == Filter(up, KeyIs(DateOf, t))
    {
      SortByStable(up, DateOf, t);
    }
  }

  /** Each upcoming submission appears as often as it is stored, any other not at all. */
  lemma SubmissionsByDeadlineCounts(subs: seq<Submission>, today: Day, s: Submission)
    ensures multiset(SubmissionsByDeadline(subs, today))[s]
         == if SubmissionIsUpcoming(s, today) then multiset(subs)[s] else 0
  {
    SortByPermutation(UpcomingSubmissions(subs, today), DeadlineOf);
    FilterMultiplicity(subs, SubmissionUpcomingOn(today), s);
  }

  /** Each upcoming exam appears as often as it is stored, any other not at all. */
  lemma ExamsByDateCounts(exams: seq<Exam>, today: Day, e: Exam)
    ensures multiset(ExamsByDate(exams, today))[e]
         == if ExamIsUpcoming(e, today) then multiset(exams)[e] else 0
  {
    SortByPermutation(UpcomingExams(exams, today), DateOf);
    FilterMultiplicity(exams, ExamUpcomingOn(today), e);
  }
}
