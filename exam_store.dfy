/** The in-memory store: the default grade scale, the student, exam and score
    lists with their create/update/delete actions, the bulk upsert of scores,
    the two list filters and the average getters. */
module ExamStore {
  import opened Common
  import opened Text
  import opened Types
  import opened GradeCalculation

  // ---------------------------------------------------------------------------
  // The default grade scale

  const DefaultGradeScale := GradeScale("default", "Standard Grading", [
    GradeRange("A+", 90.0, 100.0, 4.0, "Outstanding"),
    GradeRange("A", 80.0, 89.0, 3.5, "Excellent"),
    GradeRange("B+", 70.0, 79.0, 3.0, "Very Good"),
    GradeRange("B", 60.0, 69.0, 2.5, "Good"),
    GradeRange("C+", 50.0, 59.0, 2.0, "Satisfactory"),
    GradeRange("C", 40.0, 49.0, 1.5, "Needs Improvement"),
    GradeRange("F", 0.0, 39.0, 0.0, "Fail")
  ], true)

  /** Seven bands, no two of which overlap, GPAs falling strictly from A+
      (4.0) to F (0.0) and every GPA within [0, 4]. */
  lemma DefaultScaleShape()
    ensures |DefaultGradeScale.grades| == 7
    ensures forall i, j :: 0 <= i < j < 7 ==>
      DefaultGradeScale.grades[j].maxPercentage < DefaultGradeScale.grades[i].minPercentage
    ensures forall i, j :: 0 <= i < j < 7 ==> DefaultGradeScale.grades[i].gpa > DefaultGradeScale.grades[j].gpa
    ensures DefaultGradeScale.grades[0].gpa == 4.0 && DefaultGradeScale.grades[6].gpa == 0.0
    ensures forall j :: 0 <= j < 7 ==> 0.0 <= DefaultGradeScale.grades[j].gpa <= 4.0
  {
  }

  /** Every whole percentage from 0 to 100 lies in some band of the default
      scale, so it never grades as N/A. */
  lemma DefaultScaleCoversWholePercentages(n: int)
    requires 0 <= n <= 100
    ensures !NoBand(DefaultGradeScale.grades, n as real)
    ensures CalculateGrade(n as real, DefaultGradeScale) != NotAvailable
  {
    var bands := DefaultGradeScale.grades;
    var k := if n >= 90 then 0 else if n >= 80 then 1 else if n >= 70 then 2 else if n >= 60 then 3
      else if n >= 50 then 4 else if n >= 40 then 5 else 6;
    assert InBand(bands[k], n as real);
    assert IsFirstBand(bands, n as real, k);
  }

  /** The default bands have integer bounds, so a two-decimal percentage
      between two bands, such as 89.5, grades as N/A. */
  lemma DefaultScaleGap()
    ensures CalculateGrade(89.5, DefaultGradeScale) == NotAvailable
    ensures CalculateGrade(39.99, DefaultGradeScale) == NotAvailable
  {
  }

  // ---------------------------------------------------------------------------
  // Partial updates (`{ ...record, ...updates }`)

  /** A partial student: `None` marks a field the update leaves alone. */
  datatype StudentPatch = StudentPatch(
    id: Option<string>,
    name: Option<string>,
    rollNumber: Option<string>,
    className: Option<string>,
    section: Option<string>,
    registrationDate: Option<string>,
    guardian: Option<string>,
    guardianContact: Option<string>,
    createdAt: Option<string>,
    updatedAt: Option<string>)

  function MergeStudent(s: Student, u: StudentPatch): Student {
    Student(
      u.id.GetOr(s.id), u.name.GetOr(s.name), u.rollNumber.GetOr(s.rollNumber),
      u.className.GetOr(s.className), u.section.GetOr(s.section),
      u.registrationDate.GetOr(s.registrationDate), u.guardian.GetOr(s.guardian),
      u.guardianContact.GetOr(s.guardianContact), u.createdAt.GetOr(s.createdAt),
      u.updatedAt.GetOr(s.updatedAt))
  }

  datatype ExamPatch = ExamPatch(
    id: Option<string>,
    name: Option<string>,
    examType: Option<string>,
    className: Option<string>,
    section: Option<string>,
    subjects: Option<seq<string>>,
    startDate: Option<string>,
    endDate: Option<string>,
    academicYear: Option<string>,
    term: Option<string>,
    status: Option<string>,
    createdAt: Option<string>)

  function MergeExam(e: Exam, u: ExamPatch): Exam {
    Exam(
      u.id.GetOr(e.id), u.name.GetOr(e.name), u.examType.GetOr(e.examType),
      u.className.GetOr(e.className), u.section.GetOr(e.section), u.subjects.GetOr(e.subjects),
      u.startDate.GetOr(e.startDate), u.endDate.GetOr(e.endDate),
      u.academicYear.GetOr(e.academicYear), u.term.GetOr(e.term), u.status.GetOr(e.status),
      u.createdAt.GetOr(e.createdAt))
  }

  /** A partial score. `remarks` is optional on a score, so a patch may
      leave it alone (`None`) or set it to a value that is itself optional. */
  datatype ScorePatch = ScorePatch(
    id: Option<string>,
    studentId: Option<string>,
    examId: Option<string>,
    subjectId: Option<string>,
    marksObtained: Option<real>,
    maxMarks: Option<real>,
    grade: Option<string>,
    gpa: Option<real>,
    remarks: Option<Option<string>>,
    teacherId: Option<string>,
    enteredAt: Option<string>,
    updatedAt: Option<string>)

  function MergeScore(s: Score, u: ScorePatch): Score {
    Score(
      u.id.GetOr(s.id), u.studentId.GetOr(s.studentId), u.examId.GetOr(s.examId),
      u.subjectId.GetOr(s.subjectId), u.marksObtained.GetOr(s.marksObtained),
      u.maxMarks.GetOr(s.maxMarks), u.grade.GetOr(s.grade), u.gpa.GetOr(s.gpa),
      u.remarks.GetOr(s.remarks), u.teacherId.GetOr(s.teacherId),
      u.enteredAt.GetOr(s.enteredAt), u.updatedAt.GetOr(s.updatedAt))
  }

  /** An empty patch changes nothing, and a patch that names every field
      replaces the record. */
  lemma MergeIdentities(s: Student, e: Exam, sc: Score, whole: Student)
    ensures MergeStudent(s, StudentPatch(None, None, None, None, None, None, None, None, None, None)) == s
    ensures MergeExam(e, ExamPatch(None, None, None, None, None, None, None, None, None, None, None, None)) == e
    ensures MergeScore(sc, ScorePatch(None, None, None, None, None, None, None, None, None, None, None, None)) == sc
    ensures MergeStudent(s, StudentPatch(Some(whole.id), Some(whole.name), Some(whole.rollNumber),
      Some(whole.className), Some(whole.section), Some(whole.registrationDate), Some(whole.guardian),
      Some(whole.guardianContact), Some(whole.createdAt), Some(whole.updatedAt))) == whole
  {
  }

  // ---------------------------------------------------------------------------
  // List helpers

  /** `s.map(x => hit(x) ? f(x) : x)`. */
  function MapWhere<T>(s: seq<T>, hit: T -> bool, f: T -> T): (r: seq<T>)
    ensures |r| == |s|
    ensures forall i :: 0 <= i < |s| ==> r[i] == if hit(s[i]) then f(s[i]) else s[i]
  {
    if s == [] then [] else [if hit(s[0]) then f(s[0]) else s[0]] + MapWhere(s[1..], hit, f)
  }

  /** The ids of a list of scores. */
  function ScoreIds(scores: seq<Score>): (ids: set<string>)
    ensures forall i :: 0 <= i < |scores| ==> scores[i].id in ids
    ensures forall id :: id in ids ==> exists i :: 0 <= i < |scores| && scores[i].id == id
  {
    set i | 0 <= i < |scores| :: scores[i].id
  }

  /** `scores.findIndex(s => s.id === id)`: the first position holding `id`,
      or -1. */
  function FindIndex(scores: seq<Score>, id: string): (k: int)
    ensures -1 <= k < |scores|
    ensures k == -1 <==> forall j :: 0 <= j < |scores| ==> scores[j].id != id
    ensures k >= 0 ==> scores[k].id == id && forall j :: 0 <= j < k ==> scores[j].id != id
  {
    if scores == [] then -1
    else if scores[0].id == id then 0
    else
      var k := FindIndex(scores[1..], id);
      assert forall j :: 1 <= j < |scores| ==> scores[j] == scores[1..][j - 1];
      if k == -1 then -1 else k + 1
  }

  /** The last position of `incoming` holding `id`, or -1. */
  function LastIndex(incoming: seq<Score>, id: string): (k: int)
    ensures -1 <= k < |incoming|
    ensures k == -1 <==> forall j :: 0 <= j < |incoming| ==> incoming[j].id != id
    ensures k >= 0 ==> incoming[k].id == id && forall j :: k < j < |incoming| ==> incoming[j].id != id
  {
    if incoming == [] then -1
    else if incoming[|incoming| - 1].id == id then |incoming| - 1
    else
      var pre := incoming[..|incoming| - 1];
      assert forall j :: 0 <= j < |pre| ==> pre[j] == incoming[j];
      LastIndex(pre, id)
  }

  // ---------------------------------------------------------------------------
  // Bulk upsert of scores

  /** One step of the `forEach` in `bulkUpdateScores`: overwrite the first
      element holding the incoming id if that id was present before the
      call, otherwise push. */
  function Upsert(current: seq<Score>, existing: set<string>, x: Score): seq<Score> {
    if x.id in existing then
      var index := FindIndex(current, x.id);
      if index >= 0 then current[index := x] else current
    else current + [x]
  }

  /** The upsert steps for all incoming scores, in order. */
  function Upserts(scores: seq<Score>, existing: set<string>, incoming: seq<Score>): seq<Score> {
    if incoming == [] then scores
    else Upsert(Upserts(scores, existing, incoming[..|incoming| - 1]), existing, incoming[|incoming| - 1])
  }

  /** The list `bulkUpdateScores` leaves behind. */
  function BulkUpsert(scores: seq<Score>, incoming: seq<Score>): seq<Score> {
    Upserts(scores, ScoreIds(scores), incoming)
  }

  /** An incoming score whose id the list did not hold before the call. */
  function FreshIn(scores: seq<Score>): Score -> bool {
    var ids := ScoreIds(scores);
    (x: Score) => x.id !in ids
  }

  /** What becomes of old position `i`, described all at once: the first
      position holding an id that the incoming list also carries ends up with
      the last incoming score with that id; every other position keeps its
      score. */
  function Settled(scores: seq<Score>, incoming: seq<Score>, i: nat): Score
    requires i < |scores|
  {
    var last := LastIndex(incoming, scores[i].id);
    if FindIndex(scores, scores[i].id) == i && last >= 0 then incoming[last] else scores[i]
  }

  /** The old positions of the bulk upsert's result hold the settled scores. */
  lemma UpsertsPrefix(scores: seq<Score>, incoming: seq<Score>)
    ensures var r := BulkUpsert(scores, incoming);
      |r| >= |scores| && forall i :: 0 <= i < |scores| ==> r[i] == Settled(scores, incoming, i)
  {
    UpsertsKeepIds(scores, incoming);
    forall i | 0 <= i < |scores|
      ensures BulkUpsert(scores, incoming)[i] == Settled(scores, incoming, i)
    {
      UpsertsAt(scores, incoming, i);
    }
  }

  /** The upserts never shorten the list and keep the id at every old
      position. */
  lemma {:induction false} UpsertsKeepIds(scores: seq<Score>, incoming: seq<Score>)
    ensures var r := BulkUpsert(scores, incoming);
      |r| >= |scores| && forall i :: 0 <= i < |scores| ==> r[i].id == scores[i].id
  {
    if incoming != [] {
      var pre, x := incoming[..|incoming| - 1], incoming[|incoming| - 1];
      UpsertsKeepIds(scores, pre);
      if x.id in ScoreIds(scores) {
        SameIdsSameIndex(scores, BulkUpsert(scores, pre), x.id);
      }
    }
  }

  /** Old position `i` of the result holds the settled score. */
  lemma {:induction false} UpsertsAt(scores: seq<Score>, incoming: seq<Score>, i: nat)
    requires i < |scores|
    ensures var r := BulkUpsert(scores, incoming);
      |r| >= |scores| && r[i] == Settled(scores, incoming, i)
  {
    if incoming != [] {
      var pre, x := incoming[..|incoming| - 1], incoming[|incoming| - 1];
      UpsertsAt(scores, pre, i);
      UpsertsKeepIds(scores, pre);
      var id, r := scores[i].id, BulkUpsert(scores, pre);
      assert BulkUpsert(scores, incoming) == Upsert(r, ScoreIds(scores), x);
      if id != x.id {
        assert LastIndex(incoming, id) == LastIndex(pre, id);
      } else {
        assert LastIndex(incoming, id) == |incoming| - 1;
      }
      if x.id in ScoreIds(scores) {
        SameIdsSameIndex(scores, r, x.id);
        var index := FindIndex(scores, x.id);
        assert Upsert(r, ScoreIds(scores), x) == r[index := x];
      } else {
        assert Upsert(r, ScoreIds(scores), x)[i] == r[i];
      }
    }
  }

  /** Past the old positions come the fresh incoming scores, in order. */
  lemma {:induction false} UpsertsSuffix(scores: seq<Score>, incoming: seq<Score>)
    ensures var r := BulkUpsert(scores, incoming);
      |r| == |scores| + Count(incoming, FreshIn(scores))
      && r[|scores|..] == Filter(incoming, FreshIn(scores))
  {
    if incoming != [] {
      var pre, x := incoming[..|incoming| - 1], incoming[|incoming| - 1];
      UpsertsSuffix(scores, pre);
      UpsertsKeepIds(scores, pre);
      assert incoming == pre + [x];
      FilterAppend(pre, [x], FreshIn(scores));
      var r := BulkUpsert(scores, pre);
      assert BulkUpsert(scores, incoming) == Upsert(r, ScoreIds(scores), x);
      UpsertTail(scores, r, x);
    }
  }

  /** One upsert step leaves the positions past the old ones alone, and
      adds the incoming score there when its id is fresh. */
  lemma UpsertTail(scores: seq<Score>, r: seq<Score>, x: Score)
    requires |r| >= |scores| && forall i :: 0 <= i < |scores| ==> r[i].id == scores[i].id
    ensures var r' := Upsert(r, ScoreIds(scores), x);
      |r'| >= |scores| && r'[|scores|..] == r[|scores|..] + if FreshIn(scores)(x) then [x] else []
  {
    var r' := Upsert(r, ScoreIds(scores), x);
    if x.id in ScoreIds(scores) {
      SameIdsSameIndex(scores, r, x.id);
      assert r' == r[FindIndex(scores, x.id) := x];
      assert r'[|scores|..] == r[|scores|..];
    } else {
      assert r'[|scores|..] == r[|scores|..] + [x];
    }
  }

  /** The first position of an existing id is the same in the upserted list. */
  lemma SameIdsSameIndex(scores: seq<Score>, cur: seq<Score>, id: string)
    requires |scores| <= |cur|
    requires forall i :: 0 <= i < |scores| ==> cur[i].id == scores[i].id
    requires id in ScoreIds(scores)
    ensures FindIndex(cur, id) == FindIndex(scores, id) >= 0
  {
    var k0 := FindIndex(scores, id);
    assert cur[k0].id == id;
  }

  /** Last write wins: an id present before the call ends up holding the
      last incoming score with that id, at the first position it held. */
  lemma BulkUpsertLastWriteWins(scores: seq<Score>, incoming: seq<Score>, i: nat, j: nat)
    requires i < |scores| && j < |incoming|
    requires FindIndex(scores, scores[i].id) == i && incoming[j].id == scores[i].id
    requires forall j' :: j < j' < |incoming| ==> incoming[j'].id != incoming[j].id
    ensures |BulkUpsert(scores, incoming)| >= |scores| && BulkUpsert(scores, incoming)[i] == incoming[j]
  {
    UpsertsAt(scores, incoming, i);
    LastIndexOf(incoming, j);
  }

  /** The last position holding the id of entry `j`, when none after it
      does, is `j`. */
  lemma LastIndexOf(incoming: seq<Score>, j: nat)
    requires j < |incoming|
    requires forall j' :: j < j' < |incoming| ==> incoming[j'].id != incoming[j].id
    ensures LastIndex(incoming, incoming[j].id) == j
  {
    var last := LastIndex(incoming, incoming[j].id);
    assert last >= j;
  }

  /** Every other old position keeps its score: one that is not the first
      holding its id, and one whose id no incoming score carries. */
  lemma BulkUpsertKeepsOthers(scores: seq<Score>, incoming: seq<Score>, i: nat)
    requires i < |scores|
    requires FindIndex(scores, scores[i].id) != i || forall j :: 0 <= j < |incoming| ==> incoming[j].id != scores[i].id
    ensures |BulkUpsert(scores, incoming)| >= |scores| && BulkUpsert(scores, incoming)[i] == scores[i]
  {
    UpsertsAt(scores, incoming, i);
  }

  // ---------------------------------------------------------------------------
  // Filters

  /** `studentFilter`: each field optional; an absent or empty field imposes
      nothing. */
  datatype StudentFilter = StudentFilter(className: Option<string>, section: Option<string>, search: Option<string>)

  datatype ExamFilter = ExamFilter(
    className: Option<string>,
    section: Option<string>,
    examType: Option<string>,
    status: Option<string>,
    academicYear: Option<string>,
    term: Option<string>)

  /** A filter field that is present and non-empty (JavaScript truthiness). */
  predicate Constrains(f: Option<string>) {
    f.Some? && f.value != ""
  }

  /** An exact-match condition on one field. */
  predicate FieldMatches(f: Option<string>, v: string) {
    Constrains(f) ==> v == f.value
  }

  predicate StudentMatches(st: Student, filter: StudentFilter) {
    && FieldMatches(filter.className, st.className)
    && FieldMatches(filter.section, st.section)
    && (Constrains(filter.search) ==>
          var search := Lower(filter.search.value);
          Includes(Lower(st.name), search) || Includes(Lower(st.rollNumber), search))
  }

  /** `getFilteredStudents`: the students, in order, that pass the filter. */
  function GetFilteredStudents(students: seq<Student>, filter: StudentFilter): (r: seq<Student>)
    ensures |r| <= |students|
    ensures forall i :: 0 <= i < |r| ==> r[i] in students && StudentMatches(r[i], filter)
    ensures forall i :: 0 <= i < |students| && StudentMatches(students[i], filter) ==> students[i] in r
  {
    Filter(students, (st: Student) => StudentMatches(st, filter))
  }

  /** The filter keeps order: filtering a concatenation concatenates the
      filtered parts. */
  lemma FilteredStudentsKeepOrder(a: seq<Student>, b: seq<Student>, filter: StudentFilter)
    ensures GetFilteredStudents(a + b, filter) == GetFilteredStudents(a, filter) + GetFilteredStudents(b, filter)
  {
    FilterAppend(a, b, (st: Student) => StudentMatches(st, filter));
  }

  /** A filter whose fields are all absent or empty keeps every student. */
  lemma EmptyStudentFilterKeepsAll(students: seq<Student>, c: Option<string>, s: Option<string>, q: Option<string>)
    requires !Constrains(c) && !Constrains(s) && !Constrains(q)
    ensures GetFilteredStudents(students, StudentFilter(c, s, q)) == students
  {
    FilterAll(students, (st: Student) => StudentMatches(st, StudentFilter(c, s, q)));
  }

  /** The search ignores the case of ASCII letters in the search text. */
  lemma SearchIgnoresCase(st: Student, filter: StudentFilter, q: string)
    ensures StudentMatches(st, filter.(search := Some(q)))
      == StudentMatches(st, filter.(search := Some(Lower(q))))
  {
    LowerIdempotent(q);
    assert q == "" <==> Lower(q) == "";
  }

  predicate ExamMatches(e: Exam, filter: ExamFilter) {
    && FieldMatches(filter.className, e.className)
    && FieldMatches(filter.section, e.section)
    && FieldMatches(filter.examType, e.examType)
    && FieldMatches(filter.status, e.status)
    && FieldMatches(filter.academicYear, e.academicYear)
    && FieldMatches(filter.term, e.term)
  }

  /** `getFilteredExams`: the exams, in order, that pass the filter. */
  function GetFilteredExams(exams: seq<Exam>, filter: ExamFilter): (r: seq<Exam>)
    ensures |r| <= |exams|
    ensures forall i :: 0 <= i < |r| ==> r[i] in exams && ExamMatches(r[i], filter)
    ensures forall i :: 0 <= i < |exams| && ExamMatches(exams[i], filter) ==> exams[i] in r
  {
    Filter(exams, (e: Exam) => ExamMatches(e, filter))
  }

  lemma FilteredExamsKeepOrder(a: seq<Exam>, b: seq<Exam>, filter: ExamFilter)
    ensures GetFilteredExams(a + b, filter) == GetFilteredExams(a, filter) + GetFilteredExams(b, filter)
  {
    FilterAppend(a, b, (e: Exam) => ExamMatches(e, filter));
  }

  lemma EmptyExamFilterKeepsAll(exams: seq<Exam>)
    ensures GetFilteredExams(exams, ExamFilter(None, None, None, None, None, None)) == exams
  {
    FilterAll(exams, (e: Exam) => ExamMatches(e, ExamFilter(None, None, None, None, None, None)));
  }

  // ---------------------------------------------------------------------------
  // Score getters

  /** `getStudentScores`: one student's scores in one exam, in order. */
  function GetStudentScores(scores: seq<Score>, studentId: string, examId: string): (r: seq<Score>)
    ensures forall i :: 0 <= i < |r| ==> r[i] in scores && r[i].studentId == studentId && r[i].examId == examId
    ensures forall i :: (0 <= i < |scores| && scores[i].studentId == studentId && scores[i].examId == examId
      ==> scores[i] in r)
  {
    Filter(scores, (s: Score) => s.studentId == studentId && s.examId == examId)
  }

  function SubjectScores(scores: seq<Score>, subjectId: string, examId: string): seq<Score> {
    Filter(scores, (s: Score) => s.subjectId == subjectId && s.examId == examId)
  }

  /** `getSubjectAverage`: the mean raw mark of the subject's scores in the
      exam (not a percentage, not rounded); 0 when there are none. */
  function GetSubjectAverage(scores: seq<Score>, subjectId: string, examId: string): (r: real)
    ensures var matching := SubjectScores(scores, subjectId, examId);
      && (matching == [] ==> r == 0.0)
      && (matching != [] ==> r * |matching| as real == SumOf(matching, MarksOf))
  {
    var matching := SubjectScores(scores, subjectId, examId);
    if matching == [] then 0.0 else SumOf(matching, MarksOf) / |matching| as real
  }

  /** The subject average lies between the lowest and highest matching mark. */
  lemma SubjectAverageBetween(scores: seq<Score>, subjectId: string, examId: string)
    requires SubjectScores(scores, subjectId, examId) != []
    ensures var matching := SubjectScores(scores, subjectId, examId);
      MinOf(matching, MarksOf) <= GetSubjectAverage(scores, subjectId, examId) <= MaxOf(matching, MarksOf)
  {
    MeanBetween(SubjectScores(scores, subjectId, examId), MarksOf);
  }

  /** The students of one class and section. */
  function ClassStudentIds(students: seq<Student>, className: string, section: string): (ids: set<string>)
    ensures forall id :: id in ids <==>
      exists i :: 0 <= i < |students| && students[i].id == id
        && students[i].className == className && students[i].section == section
  {
    set i | 0 <= i < |students| && students[i].className == className && students[i].section == section
      :: students[i].id
  }

  function ClassScores(scores: seq<Score>, students: seq<Student>, examId: string, className: string, section: string): seq<Score> {
    var ids := ClassStudentIds(students, className, section);
    Filter(scores, (s: Score) => s.examId == examId && s.studentId in ids)
  }

  /** `marksObtained / maxMarks * 100`, unrounded. The store divides without a
      guard; `GetClassAverage` requires a non-zero maximum on the scores it
      averages, so the 0 below is never used there. */
  function RawPercentage(s: Score): real {
    if s.maxMarks == 0.0 then 0.0 else s.marksObtained / s.maxMarks * 100.0
  }

  /** `getClassAverage`: the mean unrounded percentage of the exam's scores
      belonging to students of the class and section; 0 when there are none. */
  function GetClassAverage(scores: seq<Score>, students: seq<Student>, examId: string, className: string, section: string): (r: real)
    requires forall s :: s in ClassScores(scores, students, examId, className, section) ==> s.maxMarks != 0.0
    ensures var matching := ClassScores(scores, students, examId, className, section);
      && (matching == [] ==> r == 0.0)
      && (matching != [] ==> r * |matching| as real == SumOf(matching, RawPercentage))
  {
    var matching := ClassScores(scores, students, examId, className, section);
    if matching == [] then 0.0 else SumOf(matching, RawPercentage) / |matching| as real
  }

  /** When every score's marks lie between 0 and its maximum, the class
      average is a percentage in [0, 100]. */
  lemma ClassAverageBounds(scores: seq<Score>, students: seq<Student>, examId: string, className: string, section: string)
    requires forall i :: 0 <= i < |scores| ==> 0.0 <= scores[i].marksObtained <= scores[i].maxMarks && scores[i].maxMarks != 0.0
    ensures 0.0 <= GetClassAverage(scores, students, examId, className, section) <= 100.0
  {
    var matching := ClassScores(scores, students, examId, className, section);
    if matching != [] {
      forall i | 0 <= i < |matching| ensures 0.0 <= RawPercentage(matching[i]) <= 100.0 {
        var s := matching[i];
        assert s in scores;
        assert 0.0 <= s.marksObtained <= s.maxMarks;
        assert s.marksObtained / s.maxMarks <= 1.0 by {
          assert s.marksObtained / s.maxMarks * s.maxMarks == s.marksObtained;
        }
      }
      MeanWithin(matching, RawPercentage, 0.0, 100.0);
    }
  }

  // ---------------------------------------------------------------------------
  // The store

  /** The state the store holds and the actions that replace parts of it.
      Each action assigns one list (or filter) and says so in its frame. */
  class Store {
    var students: seq<Student>
    var subjects: seq<Subject>
    var exams: seq<Exam>
    var scores: seq<Score>
    var studentFilter: StudentFilter
    var examFilter: ExamFilter

    /** The initial state: no students, exams or scores, the five built-in
        subjects out of 100 with a pass mark of 40, and empty filters. */
    constructor (now: string)
      ensures students == [] && exams == [] && scores == []
      ensures subjects == [
        Subject("1", "Mathematics", "MATH", 100.0, 40.0, "", now),
        Subject("2", "English", "ENG", 100.0, 40.0, "", now),
        Subject("3", "Science", "SCI", 100.0, 40.0, "", now),
        Subject("4", "Social Studies", "SS", 100.0, 40.0, "", now),
        Subject("5", "Computer Science", "CS", 100.0, 40.0, "", now)
      ]
      ensures studentFilter == StudentFilter(None, None, None)
      ensures examFilter == ExamFilter(None, None, None, None, None, None)
    {
      students := [];
      subjects := [
        Subject("1", "Mathematics", "MATH", 100.0, 40.0, "", now),
        Subject("2", "English", "ENG", 100.0, 40.0, "", now),
        Subject("3", "Science", "SCI", 100.0, 40.0, "", now),
        Subject("4", "Social Studies", "SS", 100.0, 40.0, "", now),
        Subject("5", "Computer Science", "CS", 100.0, 40.0, "", now)
      ];
      exams := [];
      scores := [];
      studentFilter := StudentFilter(None, None, None);
      examFilter := ExamFilter(None, None, None, None, None, None);
    }

    method SetStudents(students': seq<Student>)
      modifies this`students
      ensures students == students'
    {
      students := students';
    }

    method SetSubjects(subjects': seq<Subject>)
      modifies this`subjects
      ensures subjects == subjects'
    {
      subjects := subjects';
    }

    method SetExams(exams': seq<Exam>)
      modifies this`exams
      ensures exams == exams'
    {
      exams := exams';
    }

    method SetScores(scores': seq<Score>)
      modifies this`scores
      ensures scores == scores'
    {
      scores := scores';
    }

    method SetStudentFilter(filter: StudentFilter)
      modifies this`studentFilter
      ensures studentFilter == filter
    {
      studentFilter := filter;
    }

    method SetExamFilter(filter: ExamFilter)
      modifies this`examFilter
      ensures examFilter == filter
    {
      examFilter := filter;
    }

    /** `addStudent`: one more student at the end, the others as they were. */
    method AddStudent(student: Student)
      modifies this`students
      ensures |students| == |old(students)| + 1
      ensures students[..|old(students)|] == old(students) && students[|old(students)|] == student
    {
      students := students + [student];
    }

    /** `updateStudent`: the students holding `id` get the patch merged in;
        the list keeps its length and every other student. */
    method UpdateStudent(id: string, updates: StudentPatch)
      modifies this`students
      ensures |students| == |old(students)|
      ensures forall i :: 0 <= i < |students| ==>
        students[i] == if old(students)[i].id == id then MergeStudent(old(students)[i], updates) else old(students)[i]
    {
      students := MapWhere(students, (s: Student) => s.id == id, (s: Student) => MergeStudent(s, updates));
    }

    /** `deleteStudent`: every student holding `id` goes, the rest stay in
        order. */
    method DeleteStudent(id: string)
      modifies this`students
      ensures students == Filter(old(students), (s: Student) => s.id != id)
      ensures forall i :: 0 <= i < |students| ==> students[i].id != id
      ensures forall i :: 0 <= i < |old(students)| && old(students)[i].id != id ==> old(students)[i] in students
    {
      students := Filter(students, (s: Student) => s.id != id);
    }

    method AddExam(exam: Exam)
      modifies this`exams
      ensures |exams| == |old(exams)| + 1
      ensures exams[..|old(exams)|] == old(exams) && exams[|old(exams)|] == exam
    {
      exams := exams + [exam];
    }

    method UpdateExam(id: string, updates: ExamPatch)
      modifies this`exams
      ensures |exams| == |old(exams)|
      ensures forall i :: 0 <= i < |exams| ==>
        exams[i] == if old(exams)[i].id == id then MergeExam(old(exams)[i], updates) else old(exams)[i]
    {
      exams := MapWhere(exams, (e: Exam) => e.id == id, (e: Exam) => MergeExam(e, updates));
    }

    method DeleteExam(id: string)
      modifies this`exams
      ensures exams == Filter(old(exams), (e: Exam) => e.id != id)
      ensures forall i :: 0 <= i < |exams| ==> exams[i].id != id
      ensures forall i :: 0 <= i < |old(exams)| && old(exams)[i].id != id ==> old(exams)[i] in exams
    {
      exams := Filter(exams, (e: Exam) => e.id != id);
    }

    method AddScore(score: Score)
      modifies this`scores
      ensures |scores| == |old(scores)| + 1
      ensures scores[..|old(scores)|] == old(scores) && scores[|old(scores)|] == score
    {
      scores := scores + [score];
    }

    method UpdateScore(id: string, updates: ScorePatch)
      modifies this`scores
      ensures |scores| == |old(scores)|
      ensures forall i :: 0 <= i < |scores| ==>
        scores[i] == if old(scores)[i].id == id then MergeScore(old(scores)[i], updates) else old(scores)[i]
    {
      scores := MapWhere(scores, (s: Score) => s.id == id, (s: Score) => MergeScore(s, updates));
    }

    /** `bulkUpdateScores`: the ids present before the call are collected
        first; then each incoming score either overwrites the first score
        holding its id or, when its id was not present, is pushed. */
    method BulkUpdateScores(newScores: seq<Score>)
      modifies this`scores
      ensures scores == BulkUpsert(old(scores), newScores)
    {
      var existingScoreIds := ScoreIds(scores);
      var updatedScores := scores;
      var k := 0;
      while k < |newScores|
        invariant 0 <= k <= |newScores|
        invariant updatedScores == Upserts(scores, existingScoreIds, newScores[..k])
      {
        var newScore := newScores[k];
        assert newScores[..k + 1][..k] == newScores[..k];
        if newScore.id in existingScoreIds {
          var index := FindIndex(updatedScores, newScore.id);
          if index >= 0 {
            updatedScores := updatedScores[index := newScore];
          }
        } else {
          updatedScores := updatedScores + [newScore];
        }
        k := k + 1;
      }
      assert newScores[..|newScores|] == newScores;
      scores := updatedScores;
    }
  }
}
