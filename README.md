# Exam results engine — a Dafny model

This project models the grading and score-aggregation core of the exam
management application "exam-excel-orchestrator". It covers seven parts:

- the grade engine: grade-band lookup, percentages, overall GPA and
  percentage, pass status, grade distribution, tie-aware ranking, class
  statistics and the half-mark validator;
- the in-memory store: the default grade scale, list CRUD on students, exams
  and scores, the bulk upsert of scores, and the filter and average getters;
- the report aggregation that runs once the rows are fetched: per-student
  totals and position, the class report with its positions, the per-subject
  analytics and the class statistics;
- the mapping between score records and database rows, and how grade and GPA
  are re-derived on insert and on update;
- the spreadsheet row classifier of the bulk score upload, and its upload
  payload;
- the student form's validation, submit gating and change handling;
- the roll-number format check and the next and multiple roll numbers.

Marks and percentages are `real`. `Math.round(x * 100) / 100` is `Round2`,
which is `Floor(x * 100 + 1/2) / 100`; this is exact for the non-negative
values involved. Database queries become inputs:

- the fetched score and subject rows;
- the class's students;
- the highest roll number on record, as an `Option<string>`.

Every sort the application performs with `sort((a, b) => key(b) - key(a))`
is modelled as a stable descending insertion sort, `Sorting.SortDesc`. Its
contract says the result is sorted and is a permutation of the input.

`calculateGrade` takes a grade scale, but the report and score hooks call it
with the percentage alone (`src/hooks/useReports.ts:47` and `:179`,
`src/hooks/useScores.ts:31` and `:199`). The scale is then `undefined`, and
reading `gradeScale.grades` throws a `TypeError`. As written, this means:

- `useStudentReport` always rejects;
- `useClassReport` rejects for every class with a student;
- every insert rejects, single or bulk, because `transformToInsert` grades each score;
- every update that supplies both marks and maximum rejects.

The members ending in `With` (and `GradeCalculation.CalculateGradeCall`)
model these calls as written: the scale actually passed is an `Option`, and
`None` stands for the thrown error. The rest of the model uses the evidently
intended behaviour, the store's default scale. `Reports.ReportFor`,
`Reports.CollectStudentReports`, `Reports.BuildClassReport`,
`ScoreRecords.GradeOfRatio`, `ScoreRecords.TransformToInsert` and
`ScoreRecords.BuildUpdateData` therefore return a value where the
application fails. "## Findings" records this.

`determinePassStatus` reads `subject.passingMarks` and `subject.maxMarks`, and
the upload reads `selectedSubject?.maxMarks`. The record types in
`src/types/index.ts` declare snake-case names for those fields. The model
uses the fields the code reads.

Modules and files:

| module | file | what it holds |
|---|---|---|
| Common | common.dfy | `Option`, `Round2`, sums, minima and maxima, `Filter` |
| Text | text.dfy | trimming, lower-casing, `includes`, `indexOf`, `replace`, `parseInt`, `padStart`, number printing |
| Tally | tally.dfy | counting dictionaries |
| Sorting | sorting.dfy | the stable descending sort and competition counts |
| Types | types.dfy | the application's records |
| GradeCalculation | grade_calculation.dfy | `src/utils/gradeCalculation.ts` |
| ExamStore | exam_store.dfy | `src/store/examStore.ts`; the store is the class `Store` |
| ScoreRecords | score_records.dfy | `src/hooks/useScores.ts` |
| Reports | reports.dfy | `src/hooks/useReports.ts` |
| BulkScoreUpload | bulk_score_upload.dfy | `src/components/Scores/BulkScoreUpload.tsx` |
| StudentForm | student_form.dfy | `src/components/Students/StudentForm.tsx`; the form state is the class `StudentFormState` |
| RollNumbers | roll_numbers.dfy | `src/utils/rollNumberGenerator.ts` |

## Model

| member | source | states |
|---|---|---|
| GradeCalculation.FirstBand | src/utils/gradeCalculation.ts:5-7 | `grades.find` stops at the first band, in scale order, whose inclusive bounds contain the percentage, and finds none exactly when no band does |
| GradeCalculation.CalculateGrade | src/utils/gradeCalculation.ts:4-18 | the answer is the grade, GPA and description of the first containing band; it is the N/A sentinel (N/A, 0, "Not Available") exactly when no band contains the percentage |
| GradeCalculation.CalculateGradeCall | src/utils/gradeCalculation.ts:4-7 | the call with the scale actually passed: it throws (None) exactly when no scale is passed, because `gradeScale.grades` is read from `undefined`; otherwise it answers the first containing band, or N/A when none contains the percentage |
| GradeCalculation.CalculatePercentage | src/utils/gradeCalculation.ts:20-23 | 0 when the maximum is 0, otherwise the ratio times 100 rounded to two decimals; the result is always a whole number of cents |
| Common.Round2 | src/utils/gradeCalculation.ts:22 | `Math.round(x * 100) / 100`: the result is within half a cent of x (halves round up) and is a whole number of cents |
| Common.SumOf | src/utils/gradeCalculation.ts:40-41 | defines the `reduce((sum, x) => sum + f(x), 0)` sums; SumOfBounds, SumOfAppend and SumOfMonotone state their bounds, additivity and monotonicity |
| Common.MaxOf | src/utils/gradeCalculation.ts:109 | `Math.max(...)` of a non-empty list: at least every term, and equal to one of them |
| Common.MinOf | src/utils/gradeCalculation.ts:110 | `Math.min(...)` of a non-empty list: at most every term, and equal to one of them |
| GradeCalculation.PercentageEnds | src/utils/gradeCalculation.ts:20-23 | full marks out of a positive maximum are exactly 100 percent, and no marks are 0 percent |
| GradeCalculation.PercentageBounds | src/utils/gradeCalculation.ts:20-23 | marks between 0 and the maximum give a percentage in [0, 100] |
| GradeCalculation.CalculateOverallGPA | src/utils/gradeCalculation.ts:25-35 | 0 for no scores; otherwise the mean of each score's band GPA, rounded to two decimals |
| GradeCalculation.GradeOfScore | src/utils/gradeCalculation.ts:29-30 | defines one score's grade: the scale's answer for its rounded percentage; CalculateOverallGPA and GetGradeDistribution state what is built from it |
| GradeCalculation.OverallGPABounds | src/utils/gradeCalculation.ts:25-35 | when every band's GPA lies in [0, top], so does the overall GPA |
| GradeCalculation.CalculateOverallPercentage | src/utils/gradeCalculation.ts:37-44 | 0 for no scores and 0 when the maxima sum to 0; otherwise within half a cent of the summed marks over the summed maxima times 100; always a whole number of cents |
| GradeCalculation.OverallPercentageBounds | src/utils/gradeCalculation.ts:37-44 | marks within their maxima give an overall percentage in [0, 100] |
| GradeCalculation.LookupSubject | src/utils/gradeCalculation.ts:47-50 | the map built from the subject list answers None exactly when no subject has the id; otherwise it answers a subject with that id (the last one listed, as `new Map` keeps the last) |
| GradeCalculation.DeterminePassStatus | src/utils/gradeCalculation.ts:46-58 | true exactly when every score's subject is known and its rounded percentage reaches the subject's passing percentage |
| GradeCalculation.PassStatusCases | src/utils/gradeCalculation.ts:46-58 | an empty score list passes; one score with an unknown subject fails the whole list |
| GradeCalculation.ReachesPassMark | src/utils/gradeCalculation.ts:53-56 | defines one score's check: the rounded percentage against the unrounded passing percentage, with the IEEE outcomes of a zero subject maximum; its cases are stated by PassStatusCases |
| GradeCalculation.PassingMarkCanFail | src/utils/gradeCalculation.ts:53-56 | exactly the passing marks can fail, because the score's percentage is rounded and the threshold is not: 10 of 30 rounds to 33.33, below 33.333… |
| GradeCalculation.DeterminePassStatusExact | src/utils/gradeCalculation.ts:46-58 | the pass check with the unrounded ratio, which holds exactly when every score passes the exact comparison |
| GradeCalculation.ExactPassIsInclusive | src/utils/gradeCalculation.ts:54-56 | with the exact comparison and the subject's own maximum, a score passes exactly when its marks reach the passing marks |
| GradeCalculation.GetGradeDistribution | src/utils/gradeCalculation.ts:60-76 | the keys are the scale's grades and the grades given; each key holds the number of scores given that grade (0 for an unused grade of the scale) |
| GradeCalculation.ZeroDistribution | src/utils/gradeCalculation.ts:63-66 | every grade of the scale is a key holding 0, and nothing else is a key |
| GradeCalculation.CountGrades | src/utils/gradeCalculation.ts:68-73 | the counting loop produces the tally of the grades, one increment per score, in order |
| GradeCalculation.GradeDistributionTotal | src/utils/gradeCalculation.ts:60-76 | the counts of the distribution add up to the number of scores |
| GradeCalculation.NotAvailableKey | src/utils/gradeCalculation.ts:60-76 | when no band of the scale is called N/A, the key N/A appears exactly when some score's percentage lies in no band |
| GradeCalculation.RankStudents | src/utils/gradeCalculation.ts:78-94 | the result is the stable descending sort of the input with ranks attached. The first rank is 1; a rank equals the previous one on a tie and is index + 1 after a drop (so 90, 90, 80, 70 rank 1, 1, 3, 4); every rank is one more than the number of students strictly above, and is at most index + 1 |
| GradeCalculation.AssignRanks | src/utils/gradeCalculation.ts:82-93 | the `currentRank` pass over a descending list keeps each student and percentage in place and gives the tie-aware ranks above |
| GradeCalculation.RankStep | src/utils/gradeCalculation.ts:84-87 | in a descending list, entry i has competition rank at most i + 1, exactly i + 1 at a drop or at the start, and the previous entry's rank on a tie |
| GradeCalculation.CalculateClassStatistics | src/utils/gradeCalculation.ts:96-126 | all zeros and an empty distribution for no scores. Otherwise: the rounded mean and the unrounded maximum and minimum of the percentages, the rounded share reaching 40, and the grade distribution. lowest ≤ average ≤ highest and the pass rate lies in [0, 100] |
| GradeCalculation.PercentagesOf | src/utils/gradeCalculation.ts:107 | one percentage per score, in order, each the score's calculatePercentage |
| GradeCalculation.ReachesClassPass | src/utils/gradeCalculation.ts:113-114 | defines the class pass test `p >= 40`, inclusive; PassShareBounds states the rate built from it |
| GradeCalculation.ClassStatisticsBounds | src/utils/gradeCalculation.ts:107-123 | for a non-empty list, the rounded mean percentage lies between the lowest and highest percentage, and the rounded pass rate lies in [0, 100] |
| GradeCalculation.PercentagesAreCents | src/utils/gradeCalculation.ts:107 | every per-score percentage is a whole number of cents |
| GradeCalculation.CentsMeanBetween | src/utils/gradeCalculation.ts:108-120 | rounding the mean of whole-cent values to cents stays between their minimum and maximum |
| GradeCalculation.PassShareBounds | src/utils/gradeCalculation.ts:113-123 | the rounded share of percentages reaching 40 lies in [0, 100] |
| GradeCalculation.ValidateScore | src/utils/gradeCalculation.ts:128-142 | the checks run in order: negative, then above the maximum, then not a multiple of 0.5, and the first failure is reported. The score is valid exactly when 0 ≤ marks ≤ maximum and the marks are a whole number of half marks |
| GradeCalculation.ErrorMessage | src/utils/gradeCalculation.ts:128-142 | defines the three validation texts, with the maximum's own rendering as a parameter inside the parentheses |
| GradeCalculation.IsHalfStep | src/utils/gradeCalculation.ts:137 | defines a whole number of half marks (twice the marks is whole); RemainderOfHalf ties it to `% 0.5 === 0` |
| GradeCalculation.IsWhole | src/utils/gradeCalculation.ts:137 | defines `Number.isInteger`; WholeIsHalfStep states that it implies IsHalfStep |
| GradeCalculation.RemainderOfHalf | src/utils/gradeCalculation.ts:137 | for non-negative marks, a remainder of 0 modulo 0.5 means exactly a whole number of half marks |
| GradeCalculation.WholeIsHalfStep | src/utils/gradeCalculation.ts:137 | whole marks are half steps, so the integer test only short-cuts the remainder test |
| ExamStore.DefaultScaleShape | src/store/examStore.ts:68-81 | the default scale has seven pairwise disjoint bands; GPA strictly falls from A+ (4.0) to F (0.0) and stays within [0, 4] |
| ExamStore.DefaultScaleCoversWholePercentages | src/store/examStore.ts:68-81 | every whole percentage from 0 to 100 lies in some default band, so it never gets N/A |
| ExamStore.DefaultScaleGap | src/store/examStore.ts:72-80 | the integer band bounds leave gaps: 89.5 and 39.99 get N/A |
| ExamStore.MergeIdentities | src/store/examStore.ts:124-156 | the spread `{ ...x, ...updates }` changes nothing with an empty patch, and yields the patch's record when the patch names every field |
| ExamStore.MergeStudent | src/store/examStore.ts:126 | defines `{ ...student, ...updates }`: each field the patch gives replaces the record's; MergeIdentities states the empty and full patches |
| ExamStore.MergeExam | src/store/examStore.ts:140 | defines `{ ...exam, ...updates }` field by field, as MergeStudent |
| ExamStore.MergeScore | src/store/examStore.ts:154 | defines `{ ...score, ...updates }` field by field; a patch may set the optional remarks to absent |
| ExamStore.MapWhere | src/store/examStore.ts:125-127 | the `map` keeps the length; the hit elements are replaced by the merge and the others are kept |
| ExamStore.FindIndex | src/store/examStore.ts:164 | `findIndex` gives the first position holding the id, or -1 exactly when none does |
| ExamStore.ScoreIds | src/store/examStore.ts:159 | the set of ids holds exactly the ids of the scores |
| ExamStore.Upsert | src/store/examStore.ts:163-168 | defines one `forEach` step: overwrite the first entry with an id present before the call, else push; UpsertTail states its outcome |
| ExamStore.Upserts | src/store/examStore.ts:162-169 | defines the steps for all incoming scores in order; UpsertsPrefix, UpsertsKeepIds, UpsertsAt and UpsertsSuffix state what it yields |
| ExamStore.BulkUpsert | src/store/examStore.ts:158-172 | defines the list `bulkUpdateScores` leaves, with the ids present before the call; BulkUpsertLastWriteWins and BulkUpsertKeepsOthers state its meaning |
| ExamStore.UpsertsPrefix | src/store/examStore.ts:158-172 | each old position of the bulk upsert's result holds its settled score: the last incoming score with that id when the position is the first holding an id present before the call, and the old score otherwise |
| ExamStore.UpsertsKeepIds | src/store/examStore.ts:158-172 | the upserts never shorten the list and keep the id at every old position |
| ExamStore.UpsertsAt | src/store/examStore.ts:162-169 | old position i holds its settled score after all incoming scores are processed |
| ExamStore.UpsertsSuffix | src/store/examStore.ts:162-169 | past the old positions come exactly the incoming scores whose ids were not present before the call, in input order, repeats included. The new length is the old length plus their number |
| ExamStore.UpsertTail | src/store/examStore.ts:163-168 | one upsert step leaves the appended part alone except for appending a fresh score |
| ExamStore.SameIdsSameIndex | src/store/examStore.ts:164 | `findIndex` on the working copy finds an existing id at the same position as in the old list |
| ExamStore.BulkUpsertLastWriteWins | src/store/examStore.ts:162-169 | last write wins: the first position of an existing id ends up holding the last incoming score with that id |
| ExamStore.LastIndexOf | src/store/examStore.ts:162 | an incoming score with no later score of the same id is the last one with that id |
| ExamStore.BulkUpsertKeepsOthers | src/store/examStore.ts:158-172 | every other old position keeps its score |
| ExamStore.GetFilteredStudents | src/store/examStore.ts:182-194 | the result is drawn from the students and passes the filter, and every student passing the filter is in it; the search ignores the case of ASCII letters only (admitted under Left out) |
| ExamStore.StudentMatches | src/store/examStore.ts:185-192 | defines the student filter: exact class and section when given and non-empty, and a search contained in the lower-cased name or roll number |
| ExamStore.FilteredStudentsKeepOrder | src/store/examStore.ts:184 | the filter keeps order: filtering a concatenation concatenates the filtered parts |
| ExamStore.EmptyStudentFilterKeepsAll | src/store/examStore.ts:185-192 | absent or empty filter fields impose nothing |
| ExamStore.SearchIgnoresCase | src/store/examStore.ts:187-190 | a search text and its ASCII-lower-cased form match the same students |
| ExamStore.GetFilteredExams | src/store/examStore.ts:196-207 | the result is drawn from the exams and passes the filter, and every exam passing the filter is in it |
| ExamStore.ExamMatches | src/store/examStore.ts:199-205 | defines the exam filter: exact class, section, type, status, year and term, each when given and non-empty |
| ExamStore.FilteredExamsKeepOrder | src/store/examStore.ts:198 | the exam filter keeps order |
| ExamStore.EmptyExamFilterKeepsAll | src/store/examStore.ts:199-205 | an empty exam filter keeps every exam |
| ExamStore.GetStudentScores | src/store/examStore.ts:209-212 | exactly the scores of that student in that exam |
| ExamStore.GetSubjectAverage | src/store/examStore.ts:214-222 | 0 when no score matches the subject and exam, otherwise the arithmetic mean of the raw marks |
| ExamStore.SubjectAverageBetween | src/store/examStore.ts:214-222 | the subject average lies between the lowest and highest matching mark |
| ExamStore.ClassStudentIds | src/store/examStore.ts:226-229 | the ids of exactly the students of that class and section |
| ExamStore.ClassScores | src/store/examStore.ts:230-232 | defines the exam's scores whose student is in the class and section, in order |
| ExamStore.RawPercentage | src/store/examStore.ts:235 | defines `marksObtained / maxMarks * 100` unrounded; its zero-maximum value is never averaged, by the requires of GetClassAverage |
| ExamStore.GetClassAverage | src/store/examStore.ts:224-237 | 0 when no score of a class member matches the exam, otherwise the mean unrounded percentage of those scores; only the averaged scores need a non-zero maximum |
| ExamStore.ClassAverageBounds | src/store/examStore.ts:224-237 | marks within their maxima give a class average in [0, 100] |
| ExamStore.Store.constructor | src/store/examStore.ts:86-109 | the initial store holds no students, exams or scores and empty filters, and exactly the five built-in subjects: ids "1" to "5", Mathematics/MATH, English/ENG, Science/SCI, Social Studies/SS and Computer Science/CS, each out of 100 with 40 to pass and an empty description; the creation time is a parameter |
| ExamStore.Store.SetStudents | src/store/examStore.ts:112 | replaces the students and nothing else |
| ExamStore.Store.SetSubjects | src/store/examStore.ts:113 | replaces the subjects and nothing else |
| ExamStore.Store.SetExams | src/store/examStore.ts:114 | replaces the exams and nothing else |
| ExamStore.Store.SetScores | src/store/examStore.ts:115 | replaces the scores and nothing else |
| ExamStore.Store.SetStudentFilter | src/store/examStore.ts:178 | replaces the student filter and nothing else |
| ExamStore.Store.SetExamFilter | src/store/examStore.ts:179 | replaces the exam filter and nothing else |
| ExamStore.Store.AddStudent | src/store/examStore.ts:120-122 | appends exactly the student; the earlier students and every other field are unchanged |
| ExamStore.Store.UpdateStudent | src/store/examStore.ts:124-128 | keeps the length; students with the id get the patch merged and the rest are identical; the other fields are unchanged |
| ExamStore.Store.DeleteStudent | src/store/examStore.ts:130-132 | removes every student with the id and keeps the rest in order; the other fields are unchanged |
| ExamStore.Store.AddExam | src/store/examStore.ts:134-136 | appends exactly the exam and changes nothing else |
| ExamStore.Store.UpdateExam | src/store/examStore.ts:138-142 | keeps the length and merges the patch into exactly the exams with the id |
| ExamStore.Store.DeleteExam | src/store/examStore.ts:144-146 | removes every exam with the id and keeps the rest in order |
| ExamStore.Store.AddScore | src/store/examStore.ts:148-150 | appends exactly the score and changes nothing else |
| ExamStore.Store.UpdateScore | src/store/examStore.ts:152-156 | keeps the length and merges the patch into exactly the scores with the id |
| ExamStore.Store.BulkUpdateScores | src/store/examStore.ts:158-172 | the loop over the copied list (findIndex, in-place assignment, push) leaves exactly the bulk upsert of the old scores; nothing else changes |
| ScoreRecords.TransformDatabaseScore | src/hooks/useScores.ts:13-26 | ids, marks and timestamps are copied; a null grade becomes "", a null GPA 0, null remarks "", and a null teacher "" |
| ScoreRecords.GradeOfRatio | src/hooks/useScores.ts:30-31 | the stored grade is the default-scale grade of the unrounded ratio; a zero maximum gives N/A |
| ScoreRecords.GradeOfRatioCall | src/hooks/useScores.ts:30-31 | the lookup as written, with the scale actually passed: it throws (None) exactly when no scale is passed, as the hooks do; with a scale, a zero maximum gives N/A; with the default scale it is GradeOfRatio |
| ScoreRecords.RemarksColumn | src/hooks/useScores.ts:41 | absent or empty remarks are stored as null, other remarks as they are |
| ScoreRecords.TransformToInsert | src/hooks/useScores.ts:29-44 | the ids and marks are copied and the teacher is the caller; grade and GPA are re-derived from the marks, never taken from the score; the remarks column is null exactly when the remarks are absent or empty, and otherwise holds them |
| ScoreRecords.TransformToInsertWith | src/hooks/useScores.ts:29-44 | `transformToInsert` with the scale its lookup receives: it throws (None) exactly when there is none; otherwise grade and GPA come from that scale and the ids and marks are copied; with the default scale it is TransformToInsert |
| ScoreRecords.InsertRowsWith | src/hooks/useScores.ts:159-166 | the bulk insert's `scores.map(transformToInsert)`: without a scale it throws exactly when the batch is non-empty; otherwise one row per score, in order, each TransformToInsertWith's; with the default scale each row is TransformToInsert's |
| ScoreRecords.InsertThenRead | src/hooks/useScores.ts:13-44 | inserting a score and reading it back gives the same score, except for the new id and timestamps, the re-derived grade and GPA, and "" for empty remarks |
| ScoreRecords.StoredGradeCanDifferFromEngine | src/hooks/useScores.ts:30-31 | grading the unrounded ratio can fall in a band gap: 22499 of 25000 is stored as N/A, while its rounded percentage (90) grades A+ |
| ScoreRecords.BuildUpdateData | src/hooks/useScores.ts:195-208 | marks, maximum, grade and GPA are written only when both marks and maximum are supplied, with grade and GPA re-derived from them; supplied remarks are written with "" as null, and absent remarks are left out |
| ScoreRecords.BuildUpdateDataWith | src/hooks/useScores.ts:195-208 | the update payload with the scale the lookup receives: without one it throws (None) exactly when both marks and maximum are supplied; otherwise the same field rules as BuildUpdateData, with grade and GPA from that scale |
| Reports.KeysInOrder | src/hooks/useReports.ts:55-61 | the keys of the rows in order of first appearance, each once: the order in which a `Map` lists them |
| Reports.ReportFor | src/hooks/useReports.ts:44-47 | the report of a student's rows: the total is the sum of the maxima and the obtained marks the sum of the marks; the percentage is 0 unless the total is positive, otherwise the rounded ratio; the grade is the default-scale grade of the unrounded ratio; the position is 0 |
| Reports.ReportWith | src/hooks/useReports.ts:43-47 | `useStudentReport`'s report with the scale its lookup receives: it throws (None) exactly when there is none, which is always as written; otherwise the percentage is ReportFor's and the grade and GPA come from that scale; with the default scale it is ReportFor |
| Reports.ReportPercentageBounds | src/hooks/useReports.ts:44-46 | marks within their maxima give a report percentage in [0, 100] |
| Reports.RoundedRatioBounds | src/hooks/useReports.ts:46 | the rounded percentage of a part of a positive whole lies in [0, 100] |
| Reports.MarksWithinTotal | src/hooks/useReports.ts:44-45 | marks within their maxima sum to at most the total |
| Reports.NoScoresReport | src/hooks/useReports.ts:175-179 | a student without rows gets no marks, total 0 and percentage 0 |
| Reports.Standings | src/hooks/useReports.ts:61 | the entries of the totals map: one per student with a row, in order of first appearance, holding that student's total |
| Reports.TotalsByStudent | src/hooks/useReports.ts:55-59 | the loop builds a map with an entry exactly for the students with a row, each holding the sum of that student's marks |
| Reports.TotalsHoldTotals | src/hooks/useReports.ts:55-59 | the totals map has an entry exactly for the students with a row, and each entry holds that student's total |
| Reports.TotalsAt | src/hooks/useReports.ts:56-59 | the same, for one student |
| Reports.TotalsStep | src/hooks/useReports.ts:56-59 | one more row lists its student if new and adds its mark to that student's total |
| Reports.TotalsAfter | src/hooks/useReports.ts:56-58 | defines one row's update `set(id, (get(id) \|\| 0) + marks)`; TotalsStep states that the totals map takes it row by row |
| Reports.TotalOfAbsent | src/hooks/useReports.ts:57 | a student without rows has total 0 |
| Reports.TotalOf | src/hooks/useReports.ts:55-59 | defines a student's summed marks over the rows; TotalsAt states that the totals map holds it |
| Reports.Totals | src/hooks/useReports.ts:55-59 | defines the totals map after the rows, one row at a time; TotalsStep and TotalsAt state its contents |
| Reports.IndexOfStudent | src/hooks/useReports.ts:64 | `findIndex`: the first entry of the student, or -1 exactly when there is none |
| Reports.StudentPosition | src/hooks/useReports.ts:55-64 | 0 exactly when the student has no row. Otherwise it is 1 + the index of the student's entry in the totals sorted highest first, and that entry holds the student's total. Everyone placed ahead has at least that total, and everyone with more is placed ahead |
| Reports.PositionFacts | src/hooks/useReports.ts:61-64 | the same facts about the position computed from the sorted standings |
| Reports.StandingTotal | src/hooks/useReports.ts:61-62 | an entry of any reordering of the standings holds its student's total |
| Reports.StandingHasRow | src/hooks/useReports.ts:61-62 | an entry of any reordering of the standings is of a student with a row |
| Reports.StandingPresent | src/hooks/useReports.ts:61-62 | a student with a row has an entry in any reordering of the standings |
| Reports.PositionAbsent | src/hooks/useReports.ts:64 | `findIndex` answers -1 in the sorted standings exactly when the student has no row |
| Reports.PositionPresent | src/hooks/useReports.ts:61-64 | the student's first entry in the sorted standings holds their total; everyone before it has at least that total and everyone with more comes before it |
| Reports.TotalEntriesAreStandings | src/hooks/useReports.ts:61 | `Array.from(totals.entries())` of the loop's map is the standings |
| Reports.CollectStudentReports | src/hooks/useReports.ts:172-238 | the loop pushes one report per fetched student, in order, each from that student's class rows |
| Reports.ReportsWith | src/hooks/useReports.ts:172-179 | the report loop with the scale each lookup receives: without one it throws (None) exactly when the class has a student; otherwise one report per student; with the default scale it is ReportsOf |
| Reports.ClassScores | src/hooks/useReports.ts:167-168 | defines the exam rows whose student is in the class |
| Reports.ReportsOf | src/hooks/useReports.ts:172-238 | one report per student, in the students' order; ReportsOfAt states each one |
| Reports.ReportsOfAt | src/hooks/useReports.ts:174-179 | report i is built from the i-th student's rows |
| Reports.CollectedReportsCover | src/hooks/useReports.ts:168-178 | every student of the class gets a report built from all of that student's rows of the exam (the class filter drops none of them); a student without rows gets percentage 0; only rows of class members feed the reports |
| Reports.AssignPositions | src/hooks/useReports.ts:241-244 | the stable descending sort by percentage, then position index + 1 on each report |
| Reports.RankedReportsOrdered | src/hooks/useReports.ts:241-244 | the ranked reports run from the highest percentage down, hold positions 1..n in order (ties get distinct consecutive positions), and are a permutation of the unranked reports |
| Reports.RankedFromSorted | src/hooks/useReports.ts:241-244 | the same, for any descending reordering of the reports |
| Reports.RankedReportsCompetition | src/hooks/useReports.ts:241-244 | a report's position is at least one more than the number of reports with a higher percentage, and exactly that at a drop in percentage |
| Reports.RankedPosition | src/hooks/useReports.ts:241-244 | the same, for any descending reordering of the reports |
| Reports.Unranked | src/hooks/useReports.ts:236 | the reports with the position reset to 0, as pushed before sorting |
| Reports.GroupBySubject | src/hooks/useReports.ts:247-256 | the loop builds the subject map and the order in which it lists its entries |
| Reports.GroupedEntries | src/hooks/useReports.ts:247-256 | the map has an entry exactly for the subjects with a row; each entry holds that subject's rows in order and the subject of its first row |
| Reports.GroupedRows | src/hooks/useReports.ts:248-255 | the same, for one subject: its rows in order, non-empty, and the subject of the first |
| Reports.GroupedKey | src/hooks/useReports.ts:249 | a subject has an entry exactly when it has a row |
| Reports.GroupStep | src/hooks/useReports.ts:248-255 | one more row lists its subject if new and appends the row to that subject's entry |
| Reports.GroupedAfter | src/hooks/useReports.ts:249-255 | defines one row's has/set/push step on the subject map; GroupStep states that the map takes it row by row |
| Reports.Grouped | src/hooks/useReports.ts:247-256 | defines the subject map after the rows; GroupedEntries, GroupedRows and GroupedKey state its contents |
| Reports.FilterSnoc | src/hooks/useReports.ts:255 | appending a row extends that subject's rows by it and leaves the other subjects' rows alone |
| Reports.GradeLabels | src/hooks/useReports.ts:272 | each row's grade, with a missing or empty grade read as N/A |
| Reports.GradeLabel | src/hooks/useReports.ts:272 | defines `s.grade \|\| 'N/A'`: a missing or empty grade reads as N/A; NotAvailableCounted states its effect on the counts |
| Reports.CountGrades | src/hooks/useReports.ts:270-274 | the loop's dictionary has a key exactly for each grade label, holding its number of rows |
| Reports.AnalyzeSubject | src/hooks/useReports.ts:260-291 | the analytic of one subject: its mean, highest and lowest raw mark, and rounded pass rate of marks at or above the passing marks; its grade distribution; lowest ≤ highest and the pass rate lies in [0, 100] |
| Reports.DescribesSubject | src/hooks/useReports.ts:260-291 | defines what one subject's analysis holds: the subject, the rounded mean, the raw extremes, the pass rate and the grade counts |
| Reports.SubjectPassRate | src/hooks/useReports.ts:265-267 | defines the share of rows at or above the passing mark, rounded to cents; SubjectPassRateBounds, SubjectAllPass and SubjectNonePass state its range and ends |
| Reports.ExtremesOrdered | src/hooks/useReports.ts:263-264 | the lowest mark is at most the highest |
| Reports.SubjectPassRateBounds | src/hooks/useReports.ts:266-267 | a subject's pass rate lies in [0, 100] |
| Reports.SubjectAverageBetween | src/hooks/useReports.ts:262-264 | with marks in whole cents, the rounded average lies between the lowest and highest mark |
| Reports.SubjectAllPass | src/hooks/useReports.ts:266-267 | the passing mark is inclusive: when every mark reaches it, the pass rate is 100 |
| Reports.SubjectNonePass | src/hooks/useReports.ts:266-267 | when no mark reaches the passing mark, the pass rate is 0 |
| Reports.GradeDistributionCounts | src/hooks/useReports.ts:270-274 | the grade counts of a subject add up to its number of rows |
| Reports.NotAvailableCounted | src/hooks/useReports.ts:272 | when no row is graded N/A itself, N/A is a key exactly when some row has a missing or empty grade |
| Reports.AnalyzeSubjects | src/hooks/useReports.ts:258-292 | one analytic per subject map entry, in the map's order, each describing that subject's rows |
| Reports.ReportPercentages | src/hooks/useReports.ts:295 | the percentages of the reports, in order |
| Reports.PassesClass | src/hooks/useReports.ts:301 | defines `r.percentage >= 40`, inclusive; ClassFiguresBounds and PassRateBounds state the rate built from it |
| Reports.EmptyClassFigures | src/hooks/useReports.ts:295-304 | an empty class has average 0, highest score 0, lowest score 100 and pass rate 0 |
| Reports.ClassFiguresOf | src/hooks/useReports.ts:295-328 | defines the class statistics: the mean percentage, the padded highest and lowest, and the share at or above 40, each rounded to cents; EmptyClassFigures and ClassFiguresBounds state its values and ranges |
| Reports.ClassFiguresBounds | src/hooks/useReports.ts:295-328 | the highest score is never below 0, the lowest never above 100, and the pass rate lies in [0, 100] |
| Reports.PaddedMaxAtLeastZero | src/hooks/useReports.ts:299 | `Math.max(...ps, 0)`, rounded, is at least 0 |
| Reports.PaddedMinAtMostHundred | src/hooks/useReports.ts:300 | `Math.min(...ps, 100)`, rounded, is at most 100 |
| Reports.PassRateBounds | src/hooks/useReports.ts:301-304 | the rounded share of reports at or above 40 percent lies in [0, 100] |
| Reports.ClassAverageBetween | src/hooks/useReports.ts:295-328 | in a non-empty class, the class average lies between the lowest and the highest score |
| Reports.PaddedMeanBetween | src/hooks/useReports.ts:296-300 | the rounded mean lies between the rounded padded minimum and the rounded padded maximum |
| Reports.PaddedExtremesBound | src/hooks/useReports.ts:299-300 | every percentage lies between the padded minimum and the padded maximum |
| Reports.BuildClassReport | src/hooks/useReports.ts:168-328 | the class's reports ranked by percentage; one analytic per subject with a class row, in order of first appearance, each over that subject's class rows; and the class statistics of the ranked reports |
| BulkScoreUpload.DataRows | src/components/Scores/BulkScoreUpload.tsx:95 | the header row is dropped; every row after it with a first cell with text is kept, and no other row |
| BulkScoreUpload.KeepRow | src/components/Scores/BulkScoreUpload.tsx:95 | defines `row.length > 0 && row[0]`: a first cell whose text is not empty |
| BulkScoreUpload.CellText | src/components/Scores/BulkScoreUpload.tsx:101-104 | defines `String(row[k] || '').trim()`, with a missing cell read as empty |
| BulkScoreUpload.MarksNumber | src/components/Scores/BulkScoreUpload.tsx:103-125 | an empty marks text reads as 0; otherwise it is the cell's number, if any |
| BulkScoreUpload.MaxMarksFor | src/components/Scores/BulkScoreUpload.tsx:46-47 | the subject's maximum, or 100 when there is no subject or its maximum is 0 |
| BulkScoreUpload.FindByRollNumber | src/components/Scores/BulkScoreUpload.tsx:112 | `find` by exact roll number: the first student with it, or none exactly when no student has it |
| BulkScoreUpload.MissingRollMessage | src/components/Scores/BulkScoreUpload.tsx:107 | defines the "Row {index+2}: Missing roll number" message, counting kept rows |
| BulkScoreUpload.ErrorMessage | src/components/Scores/BulkScoreUpload.tsx:120-146 | defines the three entry error texts, with the maximum's own rendering as a parameter |
| BulkScoreUpload.ClassifyRow | src/components/Scores/BulkScoreUpload.tsx:100-158 | a blank roll number gives the row error "Row {index + 2}: Missing roll number" and no entry. Otherwise the checks run in order: unknown student (marks `Number(marks) \|\| 0`, no student id), non-numeric marks (marks 0), marks outside [0, maximum]. The first failure is the entry's error; with none, the entry carries the student's id and name |
| BulkScoreUpload.EmptyMarksAccepted | src/components/Scores/BulkScoreUpload.tsx:103-157 | a known student with a blank marks cell gets a valid entry with 0 marks |
| BulkScoreUpload.ClassifyRows | src/components/Scores/BulkScoreUpload.tsx:95-161 | the loop pushes each kept row's entry or row error, in order; the valid scores are the entries with no error and a student id |
| BulkScoreUpload.OutcomesStep | src/components/Scores/BulkScoreUpload.tsx:100-158 | one more row adds its entry or its row error |
| BulkScoreUpload.Outcomes | src/components/Scores/BulkScoreUpload.tsx:100-158 | one outcome per kept row, each the classification of that row at its index |
| BulkScoreUpload.Entries | src/components/Scores/BulkScoreUpload.tsx:97-157 | the parsed entries, in order, each the outcome of some row |
| BulkScoreUpload.Messages | src/components/Scores/BulkScoreUpload.tsx:98-108 | the missing-roll messages, in order, each from some row |
| BulkScoreUpload.IsValidEntry | src/components/Scores/BulkScoreUpload.tsx:161 | defines `!s.error && s.studentId`: no error and a non-empty student id |
| BulkScoreUpload.ValidScores | src/components/Scores/BulkScoreUpload.tsx:161 | defines the entries kept by `parsed.filter(s => !s.error && s.studentId)`; ClassifyRows states that the loop yields them, ValidScoresUploadable and ValidScoresInRange state their ranges |
| BulkScoreUpload.EveryRowAccounted | src/components/Scores/BulkScoreUpload.tsx:100-158 | every kept row yields exactly one entry or one row error |
| BulkScoreUpload.ValidScoresInRange | src/components/Scores/BulkScoreUpload.tsx:139-161 | a valid entry has marks in [0, maximum] and belongs to a student with its roll number and id |
| BulkScoreUpload.ValidEntryOrigin | src/components/Scores/BulkScoreUpload.tsx:161 | a valid entry comes from some row's outcome |
| BulkScoreUpload.EntryFacts | src/components/Scores/BulkScoreUpload.tsx:139-157 | what a valid outcome of one row carries: marks in range and a matching student |
| BulkScoreUpload.PrepareUpload | src/components/Scores/BulkScoreUpload.tsx:181-211 | it refuses without an exam or subject, then with no valid scores; otherwise it sends one draft per valid score, in order, with the shared exam, subject and maximum, grade "" and GPA 0 |
| BulkScoreUpload.ValidScoresUploadable | src/components/Scores/BulkScoreUpload.tsx:161-211 | every valid score has a student id and marks in [0, maximum] |
| BulkScoreUpload.UploadedMarksInRange | src/components/Scores/BulkScoreUpload.tsx:181-211 | uploading the valid scores sends only drafts with marks in [0, maximum] |
| StudentForm.Set | src/components/Students/StudentForm.tsx:63 | the field takes the value and every other field keeps its value |
| StudentForm.DotAfterFinds | src/components/Students/StudentForm.tsx:40 | the scan for the "." after the "@" succeeds exactly when the pattern's dot part matches |
| StudentForm.EmailFromFinds | src/components/Students/StudentForm.tsx:40 | the scan for the "@" succeeds exactly when some "@" starts a match |
| StudentForm.EmailTestMatchesPattern | src/components/Students/StudentForm.tsx:40 | the email test accepts exactly the texts containing a non-space run, "@", a non-space run, "." and a non-space run, anywhere (unanchored) |
| StudentForm.BlankIsNoEmail | src/components/Students/StudentForm.tsx:39-40 | a white-space-only text does not look like an email |
| StudentForm.ContactNumberExamples | src/components/Students/StudentForm.tsx:47 | "+" alone and a contact with a letter are refused |
| StudentForm.LooksLikeEmail | src/components/Students/StudentForm.tsx:40 | defines the test `/\S+@\S+\.\S+/` as a scan; EmailTestMatchesPattern states that it agrees with the pattern |
| StudentForm.IsContactNumber | src/components/Students/StudentForm.tsx:47 | defines `/^\+?[\d\s-()]+$/`: an optional "+" then at least one digit, space, hyphen or parenthesis, to the end |
| StudentForm.FieldError | src/components/Students/StudentForm.tsx:37-49 | defines each field's message: the required check first, then the email or contact format check |
| StudentForm.ExpectedErrors | src/components/Students/StudentForm.tsx:36-50 | defines the error map the validation builds; ExpectedErrorsAt states each field's entry |
| StudentForm.ErrorMapAt | src/components/Students/StudentForm.tsx:36-50 | in the map filled field by field, each field's entry is exactly its own outcome |
| StudentForm.AddErrorAt | src/components/Students/StudentForm.tsx:38-49 | setting one field's error touches only that field's entry |
| StudentForm.ExpectedErrorsAt | src/components/Students/StudentForm.tsx:38-49 | a field has an entry exactly when it fails, holding its one message; the required check pre-empts the format check |
| StudentForm.ValidFormFilled | src/components/Students/StudentForm.tsx:38-52 | a form without errors has name, roll number and guardian non-blank after trimming; class, section and date of birth non-empty; a matching email; and a valid contact number |
| StudentForm.FilledFormValid | src/components/Students/StudentForm.tsx:38-52 | conversely, such a form has no errors |
| StudentForm.StudentFormState.constructor | src/components/Students/StudentForm.tsx:19-30 | a new form is empty; an edit form starts from the student's values; no errors are shown |
| StudentForm.StudentFormState.ValidateForm | src/components/Students/StudentForm.tsx:35-53 | the values are unchanged; the errors become the expected error map; the result is true exactly when the map is empty |
| StudentForm.StudentFormState.HandleSubmit | src/components/Students/StudentForm.tsx:55-60 | validation always runs; the values are submitted exactly when it passes and nothing is loading |
| StudentForm.StudentFormState.HandleChange | src/components/Students/StudentForm.tsx:62-67 | only that field takes the value; only that field's shown error is cleared to ""; all other fields and errors are unchanged |
| RollNumbers.GenerateNextRollNumber | src/utils/rollNumberGenerator.ts:23-38 | no previous roll number, or a null or empty one, gives "ST001" |
| RollNumbers.IsValidRollNumberFormat | src/utils/rollNumberGenerator.ts:50-53 | defines `/^ST\d{3,}$/`: "ST" and then at least three decimal digits; FormattedIsValid and ConsecutiveValid state which numbers pass |
| RollNumbers.FormatRollNumber | src/utils/rollNumberGenerator.ts:38 | defines `ST${n.toString().padStart(3, '0')}`, with NaN printed as "NaN"; FormatParseRoundTrip states its inverse |
| RollNumbers.NumberIn | src/utils/rollNumberGenerator.ts:34-35 | defines `parseInt(last.replace('ST', ''), 10)`; NumberInDigits states its value on a valid roll number |
| RollNumbers.NumberAfter | src/utils/rollNumberGenerator.ts:34-35 | defines that number plus one, NaN staying NaN; NumberAfterValid states its value |
| RollNumbers.StartNumber | src/utils/rollNumberGenerator.ts:72-76 | defines the first number handed out: 1 without a previous roll number, else the one after it; StartIsWhole states its range |
| RollNumbers.NextIsStart | src/utils/rollNumberGenerator.ts:23-38 | the next roll number is the start number, formatted |
| RollNumbers.PaddedDigits | src/utils/rollNumberGenerator.ts:38 | the padded digits of a whole number are at least three digits and denote the number |
| RollNumbers.FormattedIsValid | src/utils/rollNumberGenerator.ts:38-53 | every whole number formats as a roll number the format check accepts |
| RollNumbers.FormatParseRoundTrip | src/utils/rollNumberGenerator.ts:34-38 | formatting a whole number and reading it back the way the generator reads it gives the number again |
| RollNumbers.NumberInDigits | src/utils/rollNumberGenerator.ts:34-35 | stripping the first "ST" and parsing gives the value of the digits after it |
| RollNumbers.NumberAfterValid | src/utils/rollNumberGenerator.ts:34-35 | after a valid roll number the next number is one more than its digits |
| RollNumbers.NextIsFormatted | src/utils/rollNumberGenerator.ts:29-38 | a non-empty last roll number with a numeric successor is followed by that successor, formatted |
| RollNumbers.NextOfValid | src/utils/rollNumberGenerator.ts:34-53 | after a valid roll number comes the one numbered one higher, and it is valid again |
| RollNumbers.NextAfterNine | src/utils/rollNumberGenerator.ts:38 | ST009 is followed by ST010 |
| RollNumbers.NextAfterNineHundredNinetyNine | src/utils/rollNumberGenerator.ts:38 | ST999 is followed by ST1000: the padding never cuts |
| RollNumbers.NotANumberExample | src/utils/rollNumberGenerator.ts:34-38 | a last roll number whose rest is not a number gives "STNaN" |
| RollNumbers.GenerateMultipleRollNumbers | src/utils/rollNumberGenerator.ts:72-82 | the start is 1 without a previous roll number, otherwise the number after it; the result is the formatted consecutive numbers from the start, none for a count that is not positive |
| RollNumbers.CountFrom | src/utils/rollNumberGenerator.ts:79-82 | the loop pushes the formatted start + i for each i below the count |
| RollNumbers.Consecutive | src/utils/rollNumberGenerator.ts:79-82 | exactly n roll numbers |
| RollNumbers.ConsecutiveAt | src/utils/rollNumberGenerator.ts:80-81 | the i-th is start + i, formatted |
| RollNumbers.Offset | src/utils/rollNumberGenerator.ts:35-80 | start + i is a number exactly when the start is, and then it differs from the start by i (NaN plus anything is NaN) |
| RollNumbers.ConsecutiveValid | src/utils/rollNumberGenerator.ts:72-82 | from a whole start, every generated roll number is valid and reads back as start + its index |
| RollNumbers.ConsecutiveDistinct | src/utils/rollNumberGenerator.ts:72-82 | the generated roll numbers are pairwise distinct |
| RollNumbers.ConsecutiveStartsWithNext | src/utils/rollNumberGenerator.ts:23-82 | the first generated roll number is the one the single-number generator gives |
| RollNumbers.StartIsWhole | src/utils/rollNumberGenerator.ts:72-76 | no previous roll number, or a valid one, gives a whole start number of at least 1 |
| Text.Trim | src/components/Students/StudentForm.tsx:38 | `trim` leaves no white space at either end |
| Text.TrimStart | src/utils/rollNumberGenerator.ts:35 | the white space `parseInt` skips: only white space is removed, and what is left does not start with it |
| Text.TrimEmpty | src/components/Students/StudentForm.tsx:38-46 | a text trims to nothing exactly when it is all white space |
| Text.Lower | src/store/examStore.ts:188-190 | lower-cases the ASCII letters A to Z one character at a time and leaves every other character alone, so the length is kept; other Unicode letters are not lowered (admitted under Left out) |
| Text.LowerIdempotent | src/store/examStore.ts:188-190 | lower-casing twice is lower-casing once |
| Text.Includes | src/store/examStore.ts:189-190 | `includes` holds exactly when some position starts a copy of the needle |
| Text.IndexOf | src/utils/rollNumberGenerator.ts:34 | the first position where the needle occurs, or -1 exactly when it occurs nowhere |
| Text.ReplaceLeading | src/utils/rollNumberGenerator.ts:34 | replacing a leading pattern with "" drops exactly that prefix |
| Text.ReplaceFirst | src/utils/rollNumberGenerator.ts:34 | defines `replace` with a string pattern: only the first occurrence is replaced |
| Text.ParseDigits | src/utils/rollNumberGenerator.ts:35 | `parseInt` of a text of digits is its value |
| Text.ParseInt | src/utils/rollNumberGenerator.ts:35 | defines `parseInt(s, 10)`: leading white space, an optional sign, then the longest digit run, NaN without one; ParseDigits states its value on digits |
| Text.DigitsOfNat | src/utils/rollNumberGenerator.ts:38 | reading back the digits of `n.toString()` gives n |
| Text.NumberText | src/utils/rollNumberGenerator.ts:38 | defines `n.toString()` for a whole number, and "NaN"; DigitsOfNat states its inverse |
| Text.PadStart | src/utils/rollNumberGenerator.ts:38 | `padStart` prepends the pad character up to the width and never cuts |
| Text.LeadingZeros | src/utils/rollNumberGenerator.ts:38 | leading zeros do not change the value of a digit string |
| Tally.CountedKeys | src/utils/gradeCalculation.ts:69-73 | the keys of a tally are the keys it started with and the values counted |
| Tally.CountedOccurrences | src/utils/gradeCalculation.ts:69-73 | starting from counters at 0, each key holds the number of times it was counted |
| Tally.TallyTotal | src/utils/gradeCalculation.ts:69-73 | the counts of a tally, over its keys listed without repetition, add up to the number of values counted |
| Sorting.SortDesc | src/utils/gradeCalculation.ts:80 | the sort with comparator `b - a` gives a list sorted highest first that is a permutation of the input (stability: Sorting.SortDescStable) |
| Sorting.KeyRun | src/hooks/useReports.ts:241-244 | the entries with one key, in order |
| Sorting.InsertKeyRun | src/hooks/useReports.ts:241-244 | an inserted entry goes in front of every entry with the same key |
| Sorting.SortDescStable | src/hooks/useReports.ts:241-244 | the sort is stable: for every key, the entries with that key come out in the order they went in, which fixes the order of tied reports before positions are assigned |
| Sorting.Insert | src/utils/gradeCalculation.ts:80 | inserting into a descending list keeps it descending and adds exactly that entry |
| Sorting.CountAbovePermutation | src/utils/gradeCalculation.ts:80 | the number of entries above a value does not depend on their order |
| Sorting.CountAboveSorted | src/utils/gradeCalculation.ts:84-87 | in a descending list at most i entries lie above entry i, and exactly i at a drop |
| Sorting.RankInReordering | src/hooks/useReports.ts:61-64 | the same for entry i of any descending reordering of a list, counted in the original list |

## Left out

- The database, network, authentication and React Query layers are left out. Fetched rows and the highest roll number on record are inputs. The
  query's `like 'ST%'` filter and its lexicographic ordering of roll numbers
  are not modelled.
- The timestamp fallback of `generateNextRollNumber` (a failed query) reads
  the clock and is left out; so is the rethrow in
  `generateMultipleRollNumbers`.
- JavaScript numbers are modelled as exact reals. IEEE-754 rounding, precision
  above 2^53, Infinity and NaN are not modelled, except NaN in the roll-number
  parse and the `Number(x) || 0` fallbacks, which are `Option` values. Number-to-text
  formatting inside messages is not modelled either: an error carries the
  number itself.
- ExamStore.GetClassAverage: requires a non-zero maximum on each score it
  averages (the exam's scores of the class's students). The store divides
  without a guard, and JavaScript's Infinity or NaN has no real value; scores
  of other exams or classes are unconstrained.
- Text.Lower: lower-cases only the ASCII letters A to Z. JavaScript's
  `toLowerCase` also lowers other Unicode letters (É to é) and can lengthen a
  text (İ becomes "i" and a combining dot); the Unicode case tables are not
  modelled.
- ExamStore.GetFilteredStudents: because of Text.Lower, the search ignores
  the case of ASCII letters only. A student named "ÉLODIE" is found by the
  search "élodie" in the application but not in the model.
- BulkScoreUpload.PrepareUpload: requires every valid score to carry a student
  id, as the `studentId!` assertion presumes. The classifier guarantees this
  for the scores it keeps (`ValidScoresUploadable`).
- Spreadsheet reading (XLSX parsing and `FileReader`) is left out. A row is a
  sequence of optional cells, each carrying its text and the `Number` reading
  of that text; a cell JavaScript treats as false (0, `false`) arrives with the
  empty text, as `String(cell || '')` gives, and numeric spreadsheet cells are
  otherwise not distinguished from text.
- Reports.ReportFor, Reports.CollectStudentReports, Reports.BuildClassReport,
  ScoreRecords.GradeOfRatio, ScoreRecords.TransformToInsert and
  ScoreRecords.BuildUpdateData: each returns a report, row or payload graded
  with the default scale. In the application the one-argument
  `calculateGrade` call throws a `TypeError` on the missing scale, so the
  student report, a class report with a student, every insert and every
  update that supplies both marks and maximum fail. The as-written behaviour
  is modelled by Reports.ReportWith, Reports.ReportsWith,
  ScoreRecords.TransformToInsertWith, ScoreRecords.InsertRowsWith and
  ScoreRecords.BuildUpdateDataWith with no scale (see "## Findings").
- In the store, the class filter compares the record's `class` field, modelled
  as `className`. The `Student` record has no `email` or `dateOfBirth`, so an
  edit form starts with both empty.
- The store's `teachers`, `gradeScales`, `currentTeacher` and `dashboardStats`
  are never read by the modelled operations, and the `Store` class leaves
  them out.
- The in-place `studentReports.sort` and the array copy sorted in
  `rankStudents` are modelled on values (`Sorting.SortDesc`), so aliasing of
  the sorted array is not captured.
- `getGradeDistribution` grades all scores first and then counts them
  (`GradesOf`), rather than grading each score inside the counting loop; the
  counts are the same.
- UI state other than the form's values and errors is left out: toasts,
  dialogs, loading flags, the selected exam, class and section, and the
  teacher and dashboard records.
- `setCurrentTeacher`, `setDashboardStats`, `setSelectedExam`,
  `setSelectedClass`, `setSelectedSection`, `setLoading`, `setError` and
  `clearError` only replace UI fields the model does not hold, and are left
  out.
- The template download of the bulk upload and the PDF export write files
  and open windows, and are left out.

## Findings

| source | as written | input that shows it | evidently intended | confidence | as-written member | corrected member |
|---|---|---|---|---|---|---|
| src/utils/gradeCalculation.ts:53-56 | the score's percentage is rounded to cents before it is compared, but the passing percentage is not | a subject out of 30 with 10 marks to pass, and a score of 10 out of 30: 33.33 is below 33.333…, so the score fails | a score that reaches the subject's passing marks passes | not executed; medium | GradeCalculation.PassingMarkCanFail | GradeCalculation.ExactPassIsInclusive |
| src/hooks/useReports.ts:47 | `calculateGrade(percentage)` passes no scale, so reading `gradeScale.grades` throws a `TypeError` and `useStudentReport` rejects | any student and exam, with or without score rows | the report graded with the default scale | not executed; high | Reports.ReportWith | Reports.ReportFor |
| src/hooks/useReports.ts:179 | the same one-argument call inside the loop over the class's students throws at the first student, so `useClassReport` rejects | any class with at least one student | every student's report graded with the default scale | not executed; high | Reports.ReportsWith | Reports.CollectStudentReports |
| src/hooks/useScores.ts:31 | `transformToInsert` makes the same call, so a single insert and a non-empty bulk insert (bulk upload included) reject before reaching the database | any score to insert | the row's grade and GPA taken from the default scale | not executed; high | ScoreRecords.InsertRowsWith | ScoreRecords.TransformToInsert |
| src/hooks/useScores.ts:199 | the update makes the same call when both marks and maximum are supplied, so such an update rejects | a patch with `marksObtained` and `maxMarks` | the payload's grade and GPA taken from the default scale | not executed; high | ScoreRecords.BuildUpdateDataWith | ScoreRecords.BuildUpdateData |
