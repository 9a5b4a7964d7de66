# Trackademics: a verified model of the record store and the dashboard rules

Trackademics is a student planner with two parts.

- A FastAPI back end keeps two in-memory lists, submissions and exams. Each list can be added to, read whole, and deleted from by id.
- A Streamlit front end reads those lists and shows several things:
  - an urgency badge per record;
  - status and type filters;
  - checkboxes that flip a record between done and not done;
  - per-subject pie charts;
  - a priority list;
  - the upcoming records sorted by date;
  - a countdown to the next deadline.

This project models that logic in Dafny and proves what each rule promises.

Modules:

- `Collections`: the list operations the Python code uses, namely comprehensions (`Filter`, `Map`), the stable `sorted` (`SortBy`, an insertion sort) and `min` (`Min`). It also holds their lemmas: subsequence, multiplicity, permutation, sortedness and stability.
- `Models`: the two record kinds, and time.
  - Times are instants, counted as integer microseconds in naive local time.
  - A calendar date is a day number. `DayOf` rounds down, as `datetime.date()` does.
  - The Exam field `type` is called `kind` here, because `type` is a Dafny keyword.
- `Backend`: the class `Database` with the two lists as `seq` fields, and the six routes as methods: the two adds and the two deletes change the lists, the two gets return them.
- `Deadlines`: the badge, the priority score, the upcoming test and the countdown.
- `Dashboard`: the filters, the checkbox rewrite, the per-subject counting loops and the sorted upcoming lists.
- `Priority`: the two loops that build the priority list, and its score-descending stable order.
- `Client`: the checkbox flow as calls on the store, a delete by the old id and then an add of the rewritten record.

The clock readings and the random id are parameters: `today` stands for `date.today()`, `now` for `datetime.now()`, and `newId` for `uuid4()`.

## Model

| member | source | states |
|---|---|---|
| Models.DayOf | frontend/app.py:26-27 | the calendar day of an instant is the day whose midnight is the last one at or before it |
| Backend.Database.constructor | backend/database.py:6-8 | both lists start empty |
| Backend.Database.AddSubmission | backend/main.py:19-24 | the submission list grows by exactly one entry at its end: the payload with its id replaced by the generated one. The exams list is untouched. The reply carries "Submission added" and exactly the stored entry with the new id. Ids stay unique when the new id is fresh |
| Backend.Database.GetSubmissions | backend/main.py:26-28 | returns the whole submission list in insertion order |
| Backend.Database.DeleteSubmission | backend/main.py:30-34 | the list becomes the old list without every entry carrying that id. The exams list is untouched. The reply is always "Submission deleted", also for an absent id. Unique ids stay unique |
| Backend.Database.AddExam | backend/main.py:38-43 | as AddSubmission, for the exam list, with "Exam added" |
| Backend.Database.GetExams | backend/main.py:45-47 | returns the whole exam list in insertion order |
| Backend.Database.DeleteExam | backend/main.py:49-53 | as DeleteSubmission, for the exam list, with "Exam deleted" |
| Backend.RemoveId | backend/main.py:33 | no entry of the result carries the deleted id, and every entry with another id survives |
| Backend.RemoveIdKeepsOthers | backend/main.py:31-34 | delete yields a subsequence of the old list, and keeps every entry with another id exactly as often as it occurred |
| Backend.RemoveAbsentId | backend/main.py:31-34 | deleting an id no entry carries leaves the list unchanged |
| Backend.RemoveIdIdempotent | backend/main.py:50-53 | deleting the same id twice equals deleting it once |
| Backend.RemovePresentId | backend/main.py:31-34 | with unique ids, deleting an id that is present shortens the list by exactly one |
| Backend.AddThenRemove | backend/main.py:20-34 | appending an entry under a fresh id and then deleting that id restores the list |
| Backend.AddKeepsUnique | backend/main.py:20-24 | appending under a fresh id keeps all ids distinct |
| Backend.FilterKeepsUnique | backend/main.py:33 | rebuilding the list by a comprehension keeps ids distinct |
| Backend.AddThenDeleteSubmission | backend/main.py:20-34 | a client that adds a submission under a fresh id and deletes the id in the reply leaves both lists as they were |
| Deadlines.BadgeFor | frontend/app.py:29-36 | the four badge classes partition the day counts: more than 2, 1 to 2, exactly 0, negative (each an if-and-only-if) |
| Deadlines.BadgeLabels | frontend/app.py:29-36 | every positive count reads "Due in N day" when N is 1 and "Due in N days" otherwise; 0 reads "Due Today!", a negative count "Overdue!" |
| Deadlines.BadgeMonotone | frontend/app.py:29-36 | a later date never gets a more urgent badge |
| Deadlines.BadgeAgainstMidnight | frontend/app.py:26-36 | "Overdue!" exactly when the date falls before today's midnight; "Due Today!" exactly when it falls within today |
| Deadlines.NatToString | frontend/app.py:30-32 | the number in the badge is the decimal form of the day count, with no leading zero |
| Deadlines.UrgencyScore | frontend/app.py:281 | the urgency term is non-negative, at least 10 minus the days left, and zero exactly from ten days out |
| Deadlines.LengthScore | frontend/app.py:282 | the length term is the number of full 50-character blocks, capped at 5, and is 5 exactly from 250 characters |
| Deadlines.ScoreBounds | frontend/app.py:278-283 | the score is at least the length term and at least 10 minus the days left, and at most 5 from ten days out |
| Deadlines.ScoreMonotoneInDeadline | frontend/app.py:280-283 | for a fixed description, a later deadline never scores higher |
| Deadlines.ScoreMonotoneInLength | frontend/app.py:282-283 | for a fixed deadline, a longer description never scores lower |
| Deadlines.ScoreSaturates | frontend/app.py:282-283 | beyond 250 characters the description no longer changes the score |
| Deadlines.UpcomingSubmissions | frontend/app.py:340-344 | a submission is kept exactly when it is listed, its status is "pending" and its deadline is at or after today's midnight |
| Deadlines.UpcomingExams | frontend/app.py:340-345 | an exam is kept exactly when it is listed, its status is "upcoming" and its date is at or after today's midnight |
| Deadlines.SplitDuration | frontend/app.py:373-376 | hours lie in 0..23 and minutes in 0..59. The shown days, hours and minutes fall at most one minute short of the signed duration, never beyond it |
| Deadlines.SplitDurationUnique | frontend/app.py:374-376 | the split is the only one with those bounds, so it is the duration rounded down to the minute |
| Deadlines.NextDeadline | frontend/app.py:368-379 | the tracker shows "No upcoming deadlines!" exactly when no submission and no exam is upcoming |
| Deadlines.UpcomingInstantsCover | frontend/app.py:368-369 | every upcoming record's date is among the candidate dates |
| Deadlines.UpcomingInstantsSound | frontend/app.py:368-369 | every candidate date is the date of an upcoming record |
| Deadlines.NextDeadlineTarget | frontend/app.py:368-376 | when a countdown is shown, it splits the time from `now` to the least candidate date, and that date is the date of an upcoming record |
| Deadlines.NextDeadlineIsEarliest | frontend/app.py:368-372 | no upcoming submission or exam is dated before the date the countdown targets |
| Deadlines.CountdownAfterMidnight | frontend/app.py:340-376 | a pending submission due at today's midnight, viewed at 10:00, gives a countdown of -1 days, 14 hours, 0 minutes |
| Deadlines.InstantsAhead | frontend/app.py:368-372 | (corrected; see ## Findings) keeps exactly the dates at or after `now` |
| Deadlines.CountdownAhead | frontend/app.py:368-376 | (corrected; see ## Findings) with no date ahead, nothing is shown. Otherwise the countdown is the split from `now` to the earliest date not yet passed, and its day count is never negative |
| Deadlines.NextDeadlineAheadSpec | frontend/app.py:368-379 | the corrected tracker never shows negative days. It falls back to "No upcoming deadlines!" exactly when every upcoming record's date has passed |
| Dashboard.FilterSubmissions | frontend/app.py:97 | "All" returns the list unchanged. Any other choice keeps exactly the listed submissions with that status |
| Dashboard.FilterExams | frontend/app.py:191-195 | "All" for both returns the list unchanged. Otherwise an exam is kept exactly when it matches each choice that is not "All" |
| Dashboard.FiltersKeepOrder | frontend/app.py:97 | both filters return an order-preserving subsequence, keeping every copy of a passing record and none of a failing one |
| Dashboard.ToggleSubmission | frontend/app.py:103-107 | a record is re-posted exactly when the box's new state differs from "status is completed". The new status is "completed" or "pending" as the box says, and nothing but the status changes |
| Dashboard.ToggleExam | frontend/app.py:201-205 | as ToggleSubmission, with "upcoming" as the unticked status |
| Dashboard.ToggleRoundTrip | frontend/app.py:103-107 | ticking then unticking, or the reverse, restores a record whose status is one its form offers |
| Dashboard.CountBySubject | frontend/app.py:253-256 | the loop's map holds each selected subject with its number of occurrences and nothing else, and its counts sum to the number of selected records |
| Dashboard.PendingSubjectCounts | frontend/app.py:253-256 | the pending submissions per subject, and their counts sum to the number of pending submissions |
| Dashboard.UpcomingSubjectCounts | frontend/app.py:312-315 | the upcoming exams per subject, and their counts sum to the number of upcoming exams |
| Dashboard.SubmissionsByDeadlineSpec | frontend/app.py:344-348 | the list is a permutation of the upcoming submissions, holds exactly them, runs earliest deadline first, and keeps the order of `upcoming_subs` among equal deadlines |
| Dashboard.SubmissionsByDeadlineCounts | frontend/app.py:344-348 | each upcoming submission is shown exactly as often as it is stored, and no other submission is shown |
| Dashboard.ExamsByDateSpec | frontend/app.py:345-357 | the same for the upcoming exams, by date |
| Dashboard.ExamsByDateCounts | frontend/app.py:345-357 | each upcoming exam is shown exactly as often as it is stored, and no other exam is shown |
| Client.ToggleAndRepostSubmission | frontend/app.py:103-110 | when the box's new state differs, the submission is removed under its old id and the rewritten record is appended under the new id; the exams are untouched |
| Client.ToggleAndRepostExam | frontend/app.py:201-208 | the same for an exam's box; the submissions are untouched |
| Priority.AppendPendingRows | frontend/app.py:287-290 | the first loop appends exactly one row per pending submission, in list order |
| Priority.AppendUpcomingRows | frontend/app.py:292-295 | the second loop appends exactly one row per upcoming exam, in list order |
| Priority.BuildPriorityList | frontend/app.py:285-295 | the built list is the pending submissions' rows followed by the upcoming exams' rows |
| Priority.PendingRowsMembership | frontend/app.py:287-290 | a row comes from the first loop exactly when it is the row of a pending submission |
| Priority.UpcomingRowsMembership | frontend/app.py:292-295 | a row comes from the second loop exactly when it is the row of an upcoming exam |
| Priority.PriorityItemsContents | frontend/app.py:285-295 | the list has one row per pending submission and per upcoming exam. A row is in it exactly when it belongs to such a record, so no completed record appears |
| Priority.PriorityViewOrdered | frontend/app.py:299 | the sorted list is a permutation of the built list, highest score first |
| Priority.PriorityViewStable | frontend/app.py:299 | rows with equal scores keep their built order |

## Left out

- Streamlit rendering: the forms, session state, HTML and colours, and frontend/theme.py. The badge is modelled only as its class and its text, without the markup.
- HTTP between the two parts, FastAPI routing and CORS. The checkbox flow (frontend/app.py:108-109, 206-207) is modelled as direct calls on the store (`Client.ToggleAndRepostSubmission`, `Client.ToggleAndRepostExam`): a delete by the old id followed by an add of the rewritten record. The rerun of the page that follows is not modelled.
- Concurrency: the six routes are modelled as atomic and run one at a time. FastAPI runs these plain `def` handlers in a thread pool, so an add (backend/main.py:23, 42) that runs after a delete's comprehension has read the old list (backend/main.py:33, 52) but before the name is rebound is lost; the model does not capture that lost update.
- `ask_gpt` and the OpenAI client: an external service.
- matplotlib pie charts: graphics. Only the counting that feeds them is modelled.
- `datetime.fromisoformat`, `date.today()` and `datetime.now()`: instants and days are parameters. The stored strings are not parsed.
- The upcoming lists are sorted on the raw ISO strings in the code, but on the instants in the model. The two forms always write the fixed-width form `YYYY-MM-DDTHH:MM:SS` (frontend/app.py:79, 171), and on that form string order is time order.
- `uuid4`: the new id is a parameter. Freshness is assumed only by the lemmas that need it (`AddThenRemove`, `AddKeepsUnique`, `AddThenDeleteSubmission`); the code only makes it overwhelmingly likely.
- pydantic validation in backend/models.py: only the shape of the records is kept. Status and type stay strings, because the code accepts any string there rather than a fixed set.
- Deletion removes every entry with the id, not just the first; the model follows the code. With unique ids this is one entry (`RemovePresentId`).
- The description length is `len` of a Python string, which counts code points. The model counts the characters of a Dafny string.
- The health-check route `/` returns a constant and is not modelled.

## Findings

| source | as written | input that shows it | evidently intended | confidence | as-written member | corrected member |
|---|---|---|---|---|---|---|
| frontend/app.py:340-342, 368-377 | a record counts as upcoming for all of its calendar day, and the countdown subtracts `now` from the earliest such date | a pending submission due today, stored at midnight (app.py:79), viewed at 10:00 today: "Next deadline in -1 days, 14 hours, 0 minutes" | count down to the earliest upcoming date that has not yet passed, and never show a negative day count | medium, not executed | Deadlines.CountdownAfterMidnight | Deadlines.CountdownAhead |
