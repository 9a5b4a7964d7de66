/** The date rules of frontend/app.py: the urgency badge (`get_deadline_badge`),
    the priority score (`calculate_score`), the upcoming test (`is_upcoming`
    and the two comprehensions that use it) and the next-deadline countdown.
    `today` (from `date.today()`) and `now` (from `datetime.now()`) are
    parameters. */
module Deadlines {
  import opened Models
  import opened Collections

  /** `(deadline.date() - today).days`: whole calendar days, ignoring the time of day. */
  function DaysRemaining(deadline: Instant, today: Day): int
  {
    DayOf(deadline) - today
  }

  lemma DayOfMonotone(t1: Instant, t2: Instant)
    requires t1 <= t2
    ensures DayOf(t1) <= DayOf(t2)
  {
  }

  // ---------------------------------------------------------------- badge

  /** The colour class of a badge, least to most urgent. */
  datatype Severity = Low | Medium | High | Critical

  function Rank(s: Severity): nat
  {
    match s
    case Low => 0
    case Medium => 1
    case High => 2
    case Critical => 3
  }

  /** What a badge shows: its colour class and its text (the HTML around it is not modelled). */
  datatype Badge = Badge(severity: Severity, text: string)

  function DigitChar(d: nat): (c: char)
    requires d < 10
    ensures '0' <= c <= '9' && (c - '0') as nat == d
  {
    ('0' as int + d) as char
  }

  /** Python's `str` of a non-negative int: decimal digits, no leading zero. */
  function NatToString(n: nat): (s: string)
    ensures |s| >= 1 && IsDigits(s)
    ensures DigitsValue(s) == n
    ensures s[0] == '0' ==> n == 0
  {
    if n < 10 then [DigitChar(n)]
    else
      var prefix := NatToString(n / 10);
      var s := prefix + [DigitChar(n % 10)];
      assert s[..|s| - 1] == prefix;
      s
  }

  predicate IsDigits(s: string)
  {
    forall i :: 0 <= i < |s| ==> '0' <= s[i] <= '9'
  }

  /** The number a string of decimal digits denotes. */
  function DigitsValue(s: string): nat
    requires IsDigits(s)
  {
    if s == [] then 0 else DigitsValue(s[..|s| - 1]) * 10 + (s[|s| - 1] - '0') as nat
  }

  /** The badge for a number of days remaining (app.py, `get_deadline_badge`). */
  function BadgeFor(days: int): (b: Badge)
    ensures b.severity == Low <==> days > 2
    ensures b.severity == Medium <==> 1 <= days <= 2
    ensures b.severity == High <==> days == 0
    ensures b.severity == Critical <==> days < 0
  {
    if days > 2 then
      Badge(Low, "Due in " + NatToString(days) + " days")
    else if 1 <= days <= 2 then
      Badge(Medium, "Due in " + NatToString(days) + " day" + (if days > 1 then "s" else ""))
    else if days == 0 then
      Badge(High, "Due Today!")
    else
      Badge(Critical, "Overdue!")
  }

  function DeadlineBadge(deadline: Instant, today: Day): Badge
  {
    BadgeFor(DaysRemaining(deadline, today))
  }

  /** Every positive count is shown as "Due in N day(s)", singular exactly when N is 1;
      zero and below have fixed texts. */
  lemma BadgeLabels(days: int)
    ensures days >= 1 ==> BadgeFor(days).text
                          == "Due in " + NatToString(days) + (if days == 1 then " day" else " days")
    ensures days == 0 ==> BadgeFor(days).text == "Due Today!"
    ensures days < 0 ==> BadgeFor(days).text == "Overdue!"
  {
    if 1 <= days <= 2 {
      var n := NatToString(days);
      if days == 2 {
        assert "Due in " + n + " day" + "s" == "Due in " + n + " days";
      } else {
        assert "Due in " + n + " day" + "" == "Due in " + n + " day";
      }
    }
  }

  /** A later deadline never gets a more urgent badge. */
  lemma BadgeMonotone(d1: int, d2: int)
    requires d1 <= d2
    ensures Rank(BadgeFor(d1).severity) >= Rank(BadgeFor(d2).severity)
  {
  }

  /** The badge reads "Overdue!" exactly when the deadline falls before today's midnight,
      and "Due Today!" exactly when it falls within today. */
  lemma BadgeAgainstMidnight(deadline: Instant, today: Day)
    ensures DeadlineBadge(deadline, today).severity == Critical <==> deadline < today * MicrosPerDay
    ensures DeadlineBadge(deadline, today).severity == High
            <==> today * MicrosPerDay <= deadline < (today + 1) * MicrosPerDay
  {
    var d := DayOf(deadline);
    if d < today {
      assert (d + 1) * MicrosPerDay <= today * MicrosPerDay;
    } else if d > today {
      assert (today + 1) * MicrosPerDay <= d * MicrosPerDay;
    }
  }

  // ---------------------------------------------------------------- score

  /** `max(0, 10 - days_left)`: closer deadlines score higher. */
  function UrgencyScore(daysLeft: int): (u: nat)
    ensures u >= 10 - daysLeft
    ensures u == 0 || u == 10 - daysLeft
    ensures daysLeft >= 10 <==> u == 0
  {
    if 10 - daysLeft > 0 then 10 - daysLeft else 0
  }

  /** `min(len(description) // 50, 5)`: one point per full 50 characters, at most 5. */
  function LengthScore(length: nat): (l: nat)
    ensures l <= 5
    ensures l * 50 <= length
    ensures length >= 250 <==> l == 5
    ensures l < 5 ==> length < (l + 1) * 50
  {
    if length / 50 < 5 then length / 50 else 5
  }

  /** `calculate_score(deadline, description)` on the day `today`. */
  function Score(deadline: Instant, description: string, today: Day): nat
  {
    UrgencyScore(DaysRemaining(deadline, today)) + LengthScore(|description|)
  }

  /** The score is the sum of a non-negative urgency term, zero from ten days out,
      and a length term between 0 and 5. */
  lemma ScoreBounds(deadline: Instant, description: string, today: Day)
    ensures Score(deadline, description, today) >= LengthScore(|description|)
    ensures DaysRemaining(deadline, today) >= 10 ==> Score(deadline, description, today) <= 5
    ensures Score(deadline, description, today) >= 10 - DaysRemaining(deadline, today)
  {
  }

  /** For a fixed description, a later deadline never scores higher. */
  lemma ScoreMonotoneInDeadline(d1: Instant, d2: Instant, description: string, today: Day)
    requires d1 <= d2
    ensures Score(d2, description, today) <= Score(d1, description, today)
  {
    DayOfMonotone(d1, d2);
  }

  /** For a fixed deadline, a longer description never scores lower. */
  lemma ScoreMonotoneInLength(deadline: Instant, shorter: string, longer: string, today: Day)
    requires |shorter| <= |longer|
    ensures Score(deadline, shorter, today) <= Score(deadline, longer, today)
  {
  }

  /** Past 250 characters the description no longer matters. */
  lemma ScoreSaturates(deadline: Instant, d1: string, d2: string, today: Day)
    requires |d1| >= 250 && |d2| >= 250
    ensures Score(deadline, d1, today) == Score(deadline, d2, today)
  {
  }

  // ---------------------------------------------------------------- upcoming

  /** `is_upcoming`: the record's calendar date is today or later. */
  predicate IsUpcoming(t: Instant, today: Day)
  {
    DayOf(t) >= today
  }

  predicate SubmissionIsUpcoming(s: Submission, today: Day)
  {
    IsUpcoming(s.deadline, today) && s.status == Pending
  }

  predicate ExamIsUpcoming(e: Exam, today: Day)
  {
    IsUpcoming(e.date, today) && e.status == Upcoming
  }

  function SubmissionUpcomingOn(today: Day): Submission -> bool
  {
    s => SubmissionIsUpcoming(s, today)
  }

  function ExamUpcomingOn(today: Day): Exam -> bool
  {
    e => ExamIsUpcoming(e, today)
  }

  /** `upcoming_subs`: pending submissions due today or later, in list order. */
  function UpcomingSubmissions(subs: seq<Submission>, today: Day): (r: seq<Submission>)
    ensures forall s :: s in r <==> s in subs && s.status == Pending && s.deadline >= today * MicrosPerDay
  {
    Filter(subs, SubmissionUpcomingOn(today))
  }

  /** `upcoming_exams`: upcoming exams dated today or later, in list order. */
  function UpcomingExams(exams: seq<Exam>, today: Day): (r: seq<Exam>)
    ensures forall e :: e in r <==> e in exams && e.status == Upcoming && e.date >= today * MicrosPerDay
  {
    Filter(exams, ExamUpcomingOn(today))
  }

  // ---------------------------------------------------------------- countdown

  /** What the time tracker shows: `timedelta.days`, and the hours and minutes
      of `timedelta.seconds`. */
  datatype Countdown = Countdown(days: int, hours: nat, minutes: nat)

  const MicrosPerMinute: int := 60_000_000
  const MicrosPerHour: int := 3_600_000_000

  /** The instant a countdown stands for, `delta` rounded down to the minute. */
  function Shown(c: Countdown): int
  {
    c.days * MicrosPerDay + c.hours * MicrosPerHour + c.minutes * MicrosPerMinute
  }

  /** Splits a signed duration in microseconds as `timedelta` normalises it
      (whole days rounded down, then seconds in [0, 86400)), then the seconds
      into hours and minutes (app.py, time tracker). */
  function SplitDuration(delta: int): (c: Countdown)
    ensures c.hours <= 23 && c.minutes <= 59
    ensures Shown(c) <= delta < Shown(c) + MicrosPerMinute
  {
    var days := delta / MicrosPerDay;
    var seconds := (delta / MicrosPerSecond) % SecondsPerDay;
    var c := Countdown(days, seconds / 3600, (seconds % 3600) / 60);
    assert delta / MicrosPerSecond == days * SecondsPerDay + seconds;
    c
  }

  /** The split is the only one with hours below 24 and minutes below 60 that
      is within a minute below `delta`. */
  lemma SplitDurationUnique(delta: int, c: Countdown)
    requires c.hours <= 23 && c.minutes <= 59
    requires Shown(c) <= delta < Shown(c) + MicrosPerMinute
    ensures c == SplitDuration(delta)
  {
    var d := SplitDuration(delta);
    var m1 := c.days * 1440 + c.hours * 60 + c.minutes;
    var m2 := d.days * 1440 + d.hours * 60 + d.minutes;
    assert Shown(c) == m1 * MicrosPerMinute;
    assert Shown(d) == m2 * MicrosPerMinute;
    assert m1 == m2;
    assert c.hours * 60 + c.minutes < 1440;
    assert d.hours * 60 + d.minutes < 1440;
    assert c.days == d.days;
    assert c.hours == d.hours;
  }

  function DeadlineOf(s: Submission): Instant { s.deadline }
  function DateOf(e: Exam): Instant { e.date }

  /** Every upcoming date, submissions first (`all_dates`). */
  function UpcomingInstants(subs: seq<Submission>, exams: seq<Exam>, today: Day): seq<Instant>
  {
    Map(UpcomingSubmissions(subs, today), DeadlineOf)
      + Map(UpcomingExams(exams, today), DateOf)
  }

  /** The time tracker: nothing when no record is upcoming ("No upcoming
      deadlines!"), otherwise the split of the earliest upcoming date minus `now`. */
  function NextDeadline(subs: seq<Submission>, exams: seq<Exam>, today: Day, now: Instant)
    : (r: Option<Countdown>)
    ensures r.None? <==> UpcomingSubmissions(subs, today) == [] && UpcomingExams(exams, today) == []
  {
    var dates := UpcomingInstants(subs, exams, today);
    if dates == [] then None else Some(SplitDuration(Min(dates) - now))
  }

  /** Where an upcoming record's date sits in `UpcomingInstants`. */
  lemma UpcomingInstantsCover(subs: seq<Submission>, exams: seq<Exam>, today: Day)
    ensures forall s :: s in subs && SubmissionIsUpcoming(s, today) ==> s.deadline in UpcomingInstants(subs, exams, today)
    ensures forall e :: e in exams && ExamIsUpcoming(e, today) ==> e.date in UpcomingInstants(subs, exams, today)
  {
    var us, ue := UpcomingSubmissions(subs, today), UpcomingExams(exams, today);
    var ds, de := Map(us, DeadlineOf), Map(ue, DateOf);
    assert UpcomingInstants(subs, exams, today) == ds + de;
    forall s | s in subs && SubmissionIsUpcoming(s, today)
      ensures s.deadline in ds
    {
      var i :| 0 <= i < |us| && us[i] == s;
      assert ds[i] == s.deadline;
    }
    forall e | e in exams && ExamIsUpcoming(e, today)
      ensures e.date in de
    {
      var i :| 0 <= i < |ue| && ue[i] == e;
      assert de[i] == e.date;
    }
  }

  /** Every date in `UpcomingInstants` is the date of an upcoming record. */
  lemma UpcomingInstantsSound(subs: seq<Submission>, exams: seq<Exam>, today: Day, t: Instant)
    requires t in UpcomingInstants(subs, exams, today)
    ensures (exists s :: s in subs && SubmissionIsUpcoming(s, today) && s.deadline == t) ||
            (exists e :: e in exams && ExamIsUpcoming(e, today) && e.date == t)
  {
    var us, ue := UpcomingSubmissions(subs, today), UpcomingExams(exams, today);
    var ds, de := Map(us, DeadlineOf), Map(ue, DateOf);
    var dates := ds + de;
    assert UpcomingInstants(subs, exams, today) == dates;
    var k :| 0 <= k < |dates| && dates[k] == t;
    if k < |ds| {
      assert ds[k] == us[k].deadline && us[k] in us;
    } else {
      assert de[k - |ds|] == ue[k - |ds|].date && ue[k - |ds|] in ue;
    }
  }

  /** The countdown splits the time from `now` to the earliest upcoming date,
      and that date is the date of an upcoming record. */
  lemma NextDeadlineTarget(subs: seq<Submission>, exams: seq<Exam>, today: Day, now: Instant)
    requires NextDeadline(subs, exams, today, now).Some?
    ensures UpcomingInstants(subs, exams, today) != []
    ensures NextDeadline(subs, exams, today, now).value
         == SplitDuration(Min(UpcomingInstants(subs, exams, today)) - now)
    ensures var t := Min(UpcomingInstants(subs, exams, today));
      (exists s :: s in subs && SubmissionIsUpcoming(s, today) && s.deadline == t) ||
      (exists e :: e in exams && ExamIsUpcoming(e, today) && e.date == t)
  {
    UpcomingInstantsSound(subs, exams, today, Min(UpcomingInstants(subs, exams, today)));
  }

  /** No upcoming record is due before the date the countdown targets. */
  lemma NextDeadlineIsEarliest(subs: seq<Submission>, exams: seq<Exam>, today: Day)
    requires UpcomingInstants(subs, exams, today) != []
    ensures var t := Min(UpcomingInstants(subs, exams, today));
      (forall s :: s in subs && SubmissionIsUpcoming(s, today) ==> t <= s.deadline) &&
      (forall e :: e in exams && ExamIsUpcoming(e, today) ==> t <= e.date)
  {
    UpcomingInstantsCover(subs, exams, today);
  }

  // ---------------------------------------------------------------- countdown past a deadline

  /** As written, a record due today counts as upcoming all day, although the
      form stores submissions at midnight: once that midnight has passed, the
      countdown shows a negative number of days. */
  lemma CountdownAfterMidnight()
    ensures NextDeadline([Submission("a", "Essay", "History", 0, "", Pending)], [], 0, 10 * MicrosPerHour)
         == Some(Countdown(-1, 14, 0))
  {
    var s := Submission("a", "Essay", "History", 0, "", Pending);
    assert SubmissionIsUpcoming(s, 0);
    assert UpcomingSubmissions([s], 0) == [s];
    assert UpcomingExams([], 0) == [];
    assert UpcomingInstants([s], [], 0) == [0];
  }

  /** The upcoming dates that have not passed at `now`. */
  function InstantsAhead(dates: seq<Instant>, now: Instant): (r: seq<Instant>)
    ensures forall t :: t in r <==> t in dates && t >= now
  {
    Filter(dates, t => t >= now)
  }

  /** The countdown as evidently intended: to the earliest of `dates` that
      has not passed at `now`; nothing when every date has passed. */
  function CountdownAhead(dates: seq<Instant>, now: Instant): (r: Option<Countdown>)
    ensures r.None? <==> forall t :: t in dates ==> t < now
    ensures r.Some? ==> r.value.days >= 0
    ensures r.Some? ==> exists t :: t in dates && t >= now && r.value == SplitDuration(t - now) &&
                                    forall u :: u in dates && u >= now ==> t <= u
  {
    var ahead := InstantsAhead(dates, now);
    if ahead == [] then
      None
    else
      var t := Min(ahead);
      assert ahead[0] in dates && ahead[0] >= now;
      Some(SplitDuration(t - now))
  }

  /** The time tracker with the countdown as evidently intended. */
  function NextDeadlineAhead(subs: seq<Submission>, exams: seq<Exam>, today: Day, now: Instant)
    : Option<Countdown>
  {
    CountdownAhead(UpcomingInstants(subs, exams, today), now)
  }

  /** The corrected tracker never shows a negative day count, and falls back to
      "No upcoming deadlines!" exactly when every upcoming record's date has passed. */
  lemma NextDeadlineAheadSpec(subs: seq<Submission>, exams: seq<Exam>, today: Day, now: Instant)
    ensures NextDeadlineAhead(subs, exams, today, now).Some? ==> NextDeadlineAhead(subs, exams, today, now).value.days >= 0
    ensures NextDeadlineAhead(subs, exams, today, now).None? <==>
      (forall s :: s in subs && SubmissionIsUpcoming(s, today) ==> s.deadline < now) &&
      (forall e :: e in exams && ExamIsUpcoming(e, today) ==> e.date < now)
  {
    var dates := UpcomingInstants(subs, exams, today);
    UpcomingInstantsCover(subs, exams, today);
    if forall s :: s in subs && SubmissionIsUpcoming(s, today) ==> s.deadline < now {
      if forall e :: e in exams && ExamIsUpcoming(e, today) ==> e.date < now {
        forall t | t in dates ensures t < now {
          UpcomingInstantsSound(subs, exams, today, t);
        }
      }
    }
  }
}
