/** The report figures computed after the rows are fetched: a student's
    totals, percentage, grade and class position for one exam, and a class
    report with ranked student reports, per-subject analytics and class
    statistics. The fetched rows are parameters; grades come from the
    default grade scale. */
module Reports {
  import opened Common
  import opened Types
  import opened Sorting
  import opened Tally
  import opened GradeCalculation
  import opened ExamStore
  import opened ScoreRecords

  // ---------------------------------------------------------------------------
  // Fetched rows

  /** A score row together with the subject row it joins to. */
  datatype ReportRow = ReportRow(row: DbScore, subject: Subject)

  function RowMarks(r: ReportRow): real { r.row.marksObtained }

  function RowMaxMarks(r: ReportRow): real { r.row.maxMarks }

  /** The rows of one student. */
  function OfStudent(id: string): ReportRow -> bool {
    (r: ReportRow) => r.row.studentId == id
  }

  /** The rows of one subject. */
  function OfSubject(id: string): ReportRow -> bool {
    (r: ReportRow) => r.row.subjectId == id
  }

  /** The keys of `xs` in order of first appearance, each once: the order in
      which a `Map` keyed by them lists its entries. */
  function KeysInOrder<T>(xs: seq<T>, key: T -> string): (ks: seq<string>)
    ensures Distinct(ks)
    ensures forall k :: k in ks <==> exists j :: 0 <= j < |xs| && key(xs[j]) == k
  {
    if xs == [] then []
    else
      var pre := xs[..|xs| - 1];
      assert forall j :: 0 <= j < |pre| ==> pre[j] == xs[j];
      var k := key(xs[|xs| - 1]);
      if k in KeysInOrder(pre, key) then KeysInOrder(pre, key) else KeysInOrder(pre, key) + [k]
  }

  // ---------------------------------------------------------------------------
  // One student's report

  datatype StudentReport = StudentReport(
    student: Student,
    scores: seq<Score>,
    totalMarks: real,
    obtainedMarks: real,
    percentage: real,
    overallGrade: string,
    overallGPA: real,
    position: nat)

  /** The unrounded percentage of a report: 0 unless the total is positive. */
  function RatioPercentage(obtained: real, total: real): real {
    if total > 0.0 then obtained / total * 100.0 else 0.0
  }

  /** The report of a student from that student's rows, before positions are
      assigned. The percentage is rounded to cents but the grade is taken
      from the unrounded one, with the default scale. */
  function ReportFor(student: Student, rows: seq<ReportRow>): (r: StudentReport)
    ensures r.student == student && r.position == 0
    ensures |r.scores| == |rows|
    ensures forall i :: 0 <= i < |rows| ==> r.scores[i] == TransformDatabaseScore(rows[i].row)
    ensures r.totalMarks == SumOf(rows, RowMaxMarks) && r.obtainedMarks == SumOf(rows, RowMarks)
    ensures IsCents(r.percentage)
    ensures r.totalMarks <= 0.0 ==> r.percentage == 0.0
    ensures r.totalMarks > 0.0 ==> r.percentage == Round2(r.obtainedMarks / r.totalMarks * 100.0)
    ensures var g := CalculateGrade(RatioPercentage(r.obtainedMarks, r.totalMarks), DefaultGradeScale);
      r.overallGrade == g.grade && r.overallGPA == g.gpa
  {
    var totalMarks := SumOf(rows, RowMaxMarks);
    var obtainedMarks := SumOf(rows, RowMarks);
    var percentage := RatioPercentage(obtainedMarks, totalMarks);
    var overallGrade := CalculateGrade(percentage, DefaultGradeScale);
    Round2OfCents(0.0);
    StudentReport(student,
      seq(|rows|, i requires 0 <= i < |rows| => TransformDatabaseScore(rows[i].row)),
      totalMarks, obtainedMarks, Round2(percentage), overallGrade.grade, overallGrade.gpa, 0)
  }

  /** `useStudentReport`'s report as written, with `scale` the argument its
      `calculateGrade(percentage)` call receives: it passes none, so the
      lookup throws and the query fails (`None`); with the default scale the
      report is ReportFor's. */
  function ReportWith(student: Student, rows: seq<ReportRow>, scale: Option<GradeScale>): (r: Option<StudentReport>)
    ensures r.None? <==> scale.None?
    ensures scale == Some(DefaultGradeScale) ==> r == Some(ReportFor(student, rows))
    ensures r.Some? ==>
      var g := CalculateGradeCall(RatioPercentage(r.value.obtainedMarks, r.value.totalMarks), scale).value;
      && r.value.overallGrade == g.grade && r.value.overallGPA == g.gpa
      && r.value.percentage == ReportFor(student, rows).percentage
  {
    var base := ReportFor(student, rows);
    match CalculateGradeCall(RatioPercentage(base.obtainedMarks, base.totalMarks), scale)
    case None => None
    case Some(g) => Some(base.(overallGrade := g.grade, overallGPA := g.gpa))
  }

  /** With marks between zero and the maximum on every row, the percentage
      lies in [0, 100]. */
  lemma ReportPercentageBounds(student: Student, rows: seq<ReportRow>)
    requires forall i :: 0 <= i < |rows| ==> 0.0 <= rows[i].row.marksObtained <= rows[i].row.maxMarks
    ensures 0.0 <= ReportFor(student, rows).percentage <= 100.0
  {
    MarksWithinTotal(rows);
    RoundedRatioBounds(SumOf(rows, RowMarks), SumOf(rows, RowMaxMarks));
  }

  lemma RoundedRatioBounds(obtained: real, total: real)
    requires 0.0 <= obtained <= total
    ensures total > 0.0 ==> 0.0 <= Round2(obtained / total * 100.0) <= 100.0
  {
    if total > 0.0 {
      Round2Percent(obtained, total);
    }
  }

  /** Marks between zero and the maximum add up to at most the total. */
  lemma MarksWithinTotal(rows: seq<ReportRow>)
    requires forall i :: 0 <= i < |rows| ==> 0.0 <= rows[i].row.marksObtained <= rows[i].row.maxMarks
    ensures 0.0 <= SumOf(rows, RowMarks) <= SumOf(rows, RowMaxMarks)
  {
    SumOfMonotone(rows, RowMarks, RowMaxMarks);
    if rows != [] {
      SumOfBounds(rows, RowMarks, 0.0, MaxOf(rows, RowMarks));
    }
  }

  /** A student without scores gets an empty report: no marks, percentage 0
      and the lowest grade of the default scale. */
  lemma NoScoresReport(student: Student)
    ensures var r := ReportFor(student, []);
      && r.totalMarks == 0.0 && r.obtainedMarks == 0.0 && r.percentage == 0.0
      && r.overallGrade == "F" && r.overallGPA == 0.0
  {
    DefaultScaleCoversWholePercentages(0);
  }

  // ---------------------------------------------------------------------------
  // A student's class position

  /** A row of the position query: a student and a mark. */
  datatype MarkRow = MarkRow(studentId: string, marksObtained: real)

  function MarkStudent(m: MarkRow): string { m.studentId }

  /** An entry of the running totals: a student and the sum of their marks. */
  datatype StudentTotal = StudentTotal(studentId: string, total: real)

  function TotalKey(t: StudentTotal): real { t.total }

  /** The sum of a student's marks over the rows. */
  function TotalOf(rows: seq<MarkRow>, id: string): real {
    if rows == [] then 0.0
    else
      var last := rows[|rows| - 1];
      TotalOf(rows[..|rows| - 1], id) + if last.studentId == id then last.marksObtained else 0.0
  }

  /** The entries of the totals map, in the order the map lists them. */
  function Standings(rows: seq<MarkRow>): (s: seq<StudentTotal>)
    ensures |s| == |KeysInOrder(rows, MarkStudent)|
    ensures forall i :: 0 <= i < |s| ==>
      s[i] == StudentTotal(KeysInOrder(rows, MarkStudent)[i], TotalOf(rows, KeysInOrder(rows, MarkStudent)[i]))
  {
    var ids := KeysInOrder(rows, MarkStudent);
    seq(|ids|, i requires 0 <= i < |ids| => StudentTotal(ids[i], TotalOf(rows, ids[i])))
  }

  /** The map of totals built row by row: a student seen before has the mark
      added to their total, a new one is added at the end of the map. */
  method TotalsByStudent(rows: seq<MarkRow>) returns (order: seq<string>, totals: map<string, real>)
    ensures order == KeysInOrder(rows, MarkStudent)
    ensures forall id :: id in totals <==> id in order
    ensures forall id :: id in totals ==> totals[id] == TotalOf(rows, id)
  {
    order, totals := [], map[];
    for k := 0 to |rows|
      invariant order == KeysInOrder(rows[..k], MarkStudent)
      invariant totals == Totals(rows[..k])
    {
      var r := rows[k];
      TotalsStep(rows, k);
      var current := if r.studentId in totals then totals[r.studentId] else 0.0;
      if r.studentId !in totals {
        order := order + [r.studentId];
      }
      totals := totals[r.studentId := current + r.marksObtained];
    }
    assert rows[..|rows|] == rows;
    TotalsHoldTotals(rows);
  }

  /** The totals map after the given rows. */
  function Totals(rows: seq<MarkRow>): map<string, real> {
    if rows == [] then map[] else TotalsAfter(Totals(rows[..|rows| - 1]), rows[|rows| - 1])
  }

  /** The totals map after one more row. */
  function TotalsAfter(totals: map<string, real>, r: MarkRow): map<string, real> {
    var current := if r.studentId in totals then totals[r.studentId] else 0.0;
    totals[r.studentId := current + r.marksObtained]
  }

  /** The totals map has an entry exactly for the students with a row, and
      it holds the student's total. */
  lemma TotalsHoldTotals(rows: seq<MarkRow>)
    ensures forall id :: id in Totals(rows) <==> id in KeysInOrder(rows, MarkStudent)
    ensures forall id :: id in Totals(rows) ==> Totals(rows)[id] == TotalOf(rows, id)
  {
    forall id
      ensures id in Totals(rows) <==> id in KeysInOrder(rows, MarkStudent)
      ensures id in Totals(rows) ==> Totals(rows)[id] == TotalOf(rows, id)
    {
      TotalsAt(rows, id);
    }
  }

  lemma {:induction false} TotalsAt(rows: seq<MarkRow>, id: string)
    ensures id in Totals(rows) <==> id in KeysInOrder(rows, MarkStudent)
    ensures id in Totals(rows) ==> Totals(rows)[id] == TotalOf(rows, id)
  {
    if rows != [] {
      var pre, r := rows[..|rows| - 1], rows[|rows| - 1];
      TotalsAt(pre, id);
      assert rows == pre + [r];
      KeysInOrderSnoc(pre, r, MarkStudent);
      if r.studentId == id && id !in Totals(pre) {
        TotalOfAbsent(pre, id);
      }
    }
  }

  /** One more row: the student is listed if new, and the mark is added to
      their total. */
  lemma TotalsStep(rows: seq<MarkRow>, k: nat)
    requires k < |rows|
    ensures rows[k].studentId in Totals(rows[..k]) <==> rows[k].studentId in KeysInOrder(rows[..k], MarkStudent)
    ensures KeysInOrder(rows[..k + 1], MarkStudent)
      == KeysInOrderAfter(KeysInOrder(rows[..k], MarkStudent), rows[k].studentId)
    ensures Totals(rows[..k + 1]) == TotalsAfter(Totals(rows[..k]), rows[k])
  {
    var r, pre := rows[k], rows[..k];
    assert rows[..k + 1][..k] == pre && rows[..k + 1][k] == r;
    KeysInOrderSnoc(pre, r, MarkStudent);
    assert rows[..k + 1] == pre + [r];
    TotalsAt(pre, r.studentId);
  }

  lemma KeysInOrderSnoc<T>(xs: seq<T>, x: T, key: T -> string)
    ensures KeysInOrder(xs + [x], key)
      == if key(x) in KeysInOrder(xs, key) then KeysInOrder(xs, key) else KeysInOrder(xs, key) + [key(x)]
  {
    assert (xs + [x])[..|xs|] == xs;
  }

  /** A student without rows has a total of zero. */
  lemma {:induction false} TotalOfAbsent(rows: seq<MarkRow>, id: string)
    requires forall j :: 0 <= j < |rows| ==> MarkStudent(rows[j]) != id
    ensures TotalOf(rows, id) == 0.0
  {
    if rows != [] {
      var pre := rows[..|rows| - 1];
      assert forall j :: 0 <= j < |pre| ==> pre[j] == rows[j];
      TotalOfAbsent(pre, id);
    }
  }

  /** `findIndex`: the first entry of the student, or -1. */
  function IndexOfStudent(s: seq<StudentTotal>, id: string): (k: int)
    ensures -1 <= k < |s|
    ensures k >= 0 ==> s[k].studentId == id
    ensures k >= 0 ==> forall j :: 0 <= j < k ==> s[j].studentId != id
    ensures k == -1 <==> forall j :: 0 <= j < |s| ==> s[j].studentId != id
  {
    if s == [] then -1
    else if s[0].studentId == id then 0
    else
      var k := IndexOfStudent(s[1..], id);
      if k == -1 then -1 else k + 1
  }

  /** An entry of any reordering of the standings holds its student's total. */
  lemma StandingTotal(rows: seq<MarkRow>, sorted: seq<StudentTotal>, m: nat)
    requires multiset(sorted) == multiset(Standings(rows)) && m < |sorted|
    ensures sorted[m] == StudentTotal(sorted[m].studentId, TotalOf(rows, sorted[m].studentId))
  {
    assert sorted[m] in multiset(Standings(rows));
    var i :| 0 <= i < |Standings(rows)| && Standings(rows)[i] == sorted[m];
  }

  /** An entry of any reordering of the standings is of a student who has a
      row. */
  lemma StandingHasRow(rows: seq<MarkRow>, sorted: seq<StudentTotal>, m: nat)
    requires multiset(sorted) == multiset(Standings(rows)) && m < |sorted|
    ensures exists j :: 0 <= j < |rows| && rows[j].studentId == sorted[m].studentId
  {
    assert sorted[m] in multiset(Standings(rows));
    var i :| 0 <= i < |Standings(rows)| && Standings(rows)[i] == sorted[m];
    assert KeysInOrder(rows, MarkStudent)[i] in KeysInOrder(rows, MarkStudent);
  }

  /** A student with a row has an entry in any reordering of the standings. */
  lemma StandingPresent(rows: seq<MarkRow>, sorted: seq<StudentTotal>, id: string, j: nat)
    requires multiset(sorted) == multiset(Standings(rows))
    requires j < |rows| && rows[j].studentId == id
    ensures exists m :: 0 <= m < |sorted| && sorted[m].studentId == id
  {
    var ids := KeysInOrder(rows, MarkStudent);
    assert MarkStudent(rows[j]) == id;
    assert id in ids;
    var i :| 0 <= i < |ids| && ids[i] == id;
    assert Standings(rows)[i] in multiset(sorted);
  }

  /** The position of a student in the exam: 1 + the index of their entry
      once the totals are sorted by total, highest first (ties keep map
      order), and 0 when the student has no row. Everyone placed ahead has
      at least the student's total, and everyone with more is placed ahead. */
  method StudentPosition(allScores: seq<MarkRow>, studentId: string) returns (position: nat)
    ensures position == 0 <==> forall j :: 0 <= j < |allScores| ==> allScores[j].studentId != studentId
    ensures position > 0 ==>
      var sorted := SortDesc(Standings(allScores), TotalKey);
      && position <= |sorted|
      && sorted[position - 1] == StudentTotal(studentId, TotalOf(allScores, studentId))
    ensures position > 0 ==>
      var sorted := SortDesc(Standings(allScores), TotalKey);
      forall j :: 0 <= j < position - 1 ==> sorted[j].total >= TotalOf(allScores, studentId)
    ensures position > 0 ==>
      1 + CountAbove(Standings(allScores), TotalKey, TotalOf(allScores, studentId)) <= position
  {
    var order, totals := TotalsByStudent(allScores);
    var entries := TotalEntries(order, totals);
    TotalEntriesAreStandings(allScores, order, totals);
    var sorted := SortDesc(entries, TotalKey);
    var k := IndexOfStudent(sorted, studentId);
    position := k + 1;
    PositionFacts(allScores, studentId, position);
  }

  /** The facts about the position `findIndex` gives in the sorted
      standings. */
  lemma PositionFacts(rows: seq<MarkRow>, id: string, position: nat)
    requires position == IndexOfStudent(SortDesc(Standings(rows), TotalKey), id) + 1
    ensures position == 0 <==> forall j :: 0 <= j < |rows| ==> rows[j].studentId != id
    ensures position > 0 ==>
      var sorted := SortDesc(Standings(rows), TotalKey);
      && position <= |sorted|
      && sorted[position - 1] == StudentTotal(id, TotalOf(rows, id))
    ensures position > 0 ==>
      var sorted := SortDesc(Standings(rows), TotalKey);
      forall j :: 0 <= j < position - 1 ==> sorted[j].total >= TotalOf(rows, id)
    ensures position > 0 ==>
      1 + CountAbove(Standings(rows), TotalKey, TotalOf(rows, id)) <= position
  {
    var sorted := SortDesc(Standings(rows), TotalKey);
    var k := IndexOfStudent(sorted, id);
    PositionAbsent(rows, sorted, id);
    if k >= 0 {
      PositionPresent(rows, sorted, id, k);
    }
  }

  /** `Object.entries(totals)` for a map whose keys are listed in `order`. */
  function TotalEntries(order: seq<string>, totals: map<string, real>): seq<StudentTotal>
    requires forall i :: 0 <= i < |order| ==> order[i] in totals
  {
    seq(|order|, i requires 0 <= i < |order| => StudentTotal(order[i], totals[order[i]]))
  }

  /** The entries of the running totals are the standings. */
  lemma TotalEntriesAreStandings(rows: seq<MarkRow>, order: seq<string>, totals: map<string, real>)
    requires order == KeysInOrder(rows, MarkStudent)
    requires forall id :: id in totals <==> id in order
    requires forall id :: id in totals ==> totals[id] == TotalOf(rows, id)
    ensures forall i :: 0 <= i < |order| ==> order[i] in totals
    ensures TotalEntries(order, totals) == Standings(rows)
  {
  }

  /** No entry in the sorted standings exactly when the student has no row. */
  lemma PositionAbsent(rows: seq<MarkRow>, sorted: seq<StudentTotal>, id: string)
    requires multiset(sorted) == multiset(Standings(rows))
    ensures IndexOfStudent(sorted, id) == -1 <==> forall j :: 0 <= j < |rows| ==> rows[j].studentId != id
  {
    var k := IndexOfStudent(sorted, id);
    if exists j :: 0 <= j < |rows| && rows[j].studentId == id {
      var j :| 0 <= j < |rows| && rows[j].studentId == id;
      StandingPresent(rows, sorted, id, j);
    }
    if k >= 0 {
      StandingHasRow(rows, sorted, k);
    }
  }

  /** The first entry of the student in the standings sorted highest first
      holds their total, everyone before it has at least that total, and
      everyone with more comes before it. */
  lemma PositionPresent(rows: seq<MarkRow>, sorted: seq<StudentTotal>, id: string, k: nat)
    requires SortedDesc(sorted, TotalKey) && multiset(sorted) == multiset(Standings(rows))
    requires k < |sorted| && sorted[k].studentId == id
    requires forall j :: 0 <= j < k ==> sorted[j].studentId != id
    ensures sorted[k] == StudentTotal(id, TotalOf(rows, id))
    ensures forall j :: 0 <= j < k ==> sorted[j].total >= TotalOf(rows, id)
    ensures 1 + CountAbove(Standings(rows), TotalKey, TotalOf(rows, id)) <= k + 1
  {
    StandingTotal(rows, sorted, k);
    RankInReordering(Standings(rows), sorted, TotalKey, k);
  }

  // ---------------------------------------------------------------------------
  // The class report: one report per student

  function StudentIds(students: seq<Student>): set<string> {
    set s | s in students :: s.id
  }

  /** The rows of students in the given set. */
  function OfStudents(ids: set<string>): ReportRow -> bool {
    (r: ReportRow) => r.row.studentId in ids
  }

  /** `classScores`: the exam's rows whose student is in the class. */
  function ClassScores(students: seq<Student>, rows: seq<ReportRow>): seq<ReportRow> {
    Filter(rows, OfStudents(StudentIds(students)))
  }

  /** The reports of the given students in order, each from that student's
      rows among `classScores`, all with position 0. */
  function ReportsOf(students: seq<Student>, classScores: seq<ReportRow>): (rs: seq<StudentReport>)
    ensures |rs| == |students|
  {
    if students == [] then []
    else
      var s := students[|students| - 1];
      ReportsOf(students[..|students| - 1], classScores) + [ReportFor(s, Filter(classScores, OfStudent(s.id)))]
  }

  /** The report loop of `useClassReport` as written, with `scale` the
      argument each `calculateGrade(percentage)` call receives: without one
      the first student's report throws, so the query fails (`None`) exactly
      when the class has a student; with the default scale the reports are
      ReportsOf's. */
  function ReportsWith(students: seq<Student>, classScores: seq<ReportRow>, scale: Option<GradeScale>)
    : (rs: Option<seq<StudentReport>>)
    ensures rs.None? <==> scale.None? && students != []
    ensures rs.Some? ==> |rs.value| == |students|
    ensures scale == Some(DefaultGradeScale) ==> rs == Some(ReportsOf(students, classScores))
  {
    if students == [] then Some([])
    else
      var s := students[|students| - 1];
      match ReportsWith(students[..|students| - 1], classScores, scale)
      case None => None
      case Some(pre) =>
        match ReportWith(s, Filter(classScores, OfStudent(s.id)), scale)
        case None => None
        case Some(r) => Some(pre + [r])
  }

  /** The class's reports in the order its students were fetched. */
  function CollectedReports(students: seq<Student>, rows: seq<ReportRow>): seq<StudentReport> {
    ReportsOf(students, ClassScores(students, rows))
  }

  /** The loop pushing one report per student. */
  method CollectStudentReports(students: seq<Student>, rows: seq<ReportRow>) returns (reports: seq<StudentReport>)
    ensures reports == CollectedReports(students, rows)
  {
    var studentIds := StudentIds(students);
    var classScores := Filter(rows, OfStudents(studentIds));
    reports := [];
    for i := 0 to |students|
      invariant reports == ReportsOf(students[..i], classScores)
    {
      var studentScores := Filter(classScores, OfStudent(students[i].id));
      assert students[..i + 1][..i] == students[..i];
      reports := reports + [ReportFor(students[i], studentScores)];
    }
    assert students[..|students|] == students;
  }

  /** The report at index `i` is the `i`-th student's. */
  lemma {:induction false} ReportsOfAt(students: seq<Student>, classScores: seq<ReportRow>, i: nat)
    requires i < |students|
    ensures ReportsOf(students, classScores)[i] == ReportFor(students[i], Filter(classScores, OfStudent(students[i].id)))
  {
    var pre := students[..|students| - 1];
    var last := students[|students| - 1];
    assert ReportsOf(students, classScores) == ReportsOf(pre, classScores) + [ReportFor(last, Filter(classScores, OfStudent(last.id)))];
    if i < |students| - 1 {
      ReportsOfAt(pre, classScores, i);
      assert pre[i] == students[i];
    }
  }

  /** Every student of the class gets a report built from all of that
      student's rows of the exam (the class filter drops none of them), no
      other row feeds a report, and a student without rows gets percentage 0. */
  lemma CollectedReportsCover(students: seq<Student>, rows: seq<ReportRow>, i: nat)
    requires i < |students|
    ensures var r := CollectedReports(students, rows)[i];
      && r.student == students[i]
      && r == ReportFor(students[i], Filter(rows, OfStudent(students[i].id)))
    ensures Filter(rows, OfStudent(students[i].id)) == [] ==> CollectedReports(students, rows)[i].percentage == 0.0
    ensures forall j :: 0 <= j < |ClassScores(students, rows)| ==> ClassScores(students, rows)[j].row.studentId in StudentIds(students)
  {
    var id := students[i].id;
    ReportsOfAt(students, ClassScores(students, rows), i);
    assert id in StudentIds(students);
    FilterNarrow(rows, OfStudents(StudentIds(students)), OfStudent(id));
    if Filter(rows, OfStudent(id)) == [] {
      NoScoresReport(students[i]);
    }
  }

  // ---------------------------------------------------------------------------
  // Ranking the class

  function PercentageKey(r: StudentReport): real { r.percentage }

  /** The in-place sort by percentage, highest first (stable), followed by
      `position = index + 1`. */
  method AssignPositions(reports: seq<StudentReport>) returns (ranked: seq<StudentReport>)
    ensures |ranked| == |reports|
    ensures forall i :: 0 <= i < |ranked| ==> ranked[i] == SortDesc(reports, PercentageKey)[i].(position := i + 1)
  {
    var sorted := SortDesc(reports, PercentageKey);
    ranked := sorted;
    for i := 0 to |sorted|
      invariant |ranked| == |sorted|
      invariant forall j :: 0 <= j < i ==> ranked[j] == sorted[j].(position := j + 1)
      invariant forall j :: i <= j < |sorted| ==> ranked[j] == sorted[j]
    {
      ranked := ranked[i := ranked[i].(position := i + 1)];
    }
  }

  /** Ranked reports run from the highest percentage down, hold positions
      exactly 1..n in order (tied reports included), and with positions
      cleared they are the given reports reordered. */
  lemma RankedReportsOrdered(reports: seq<StudentReport>, ranked: seq<StudentReport>)
    requires forall k :: 0 <= k < |reports| ==> reports[k].position == 0
    requires |ranked| == |reports|
    requires forall k :: 0 <= k < |ranked| ==> ranked[k] == SortDesc(reports, PercentageKey)[k].(position := k + 1)
    ensures SortedDesc(ranked, PercentageKey)
    ensures forall k :: 0 <= k < |ranked| ==> ranked[k].position == k + 1
    ensures multiset(Unranked(ranked)) == multiset(reports)
  {
    RankedFromSorted(reports, SortDesc(reports, PercentageKey), ranked);
  }

  lemma RankedFromSorted(reports: seq<StudentReport>, sorted: seq<StudentReport>, ranked: seq<StudentReport>)
    requires forall k :: 0 <= k < |reports| ==> reports[k].position == 0
    requires SortedDesc(sorted, PercentageKey) && multiset(sorted) == multiset(reports)
    requires |ranked| == |sorted|
    requires forall k :: 0 <= k < |ranked| ==> ranked[k] == sorted[k].(position := k + 1)
    ensures SortedDesc(ranked, PercentageKey)
    ensures forall k :: 0 <= k < |ranked| ==> ranked[k].position == k + 1
    ensures multiset(Unranked(ranked)) == multiset(reports)
  {
    assert forall k :: 0 <= k < |ranked| ==> PercentageKey(ranked[k]) == PercentageKey(sorted[k]);
    forall k | 0 <= k < |sorted|
      ensures sorted[k].position == 0
    {
      assert sorted[k] in multiset(reports);
    }
    assert Unranked(ranked) == sorted;
  }

  /** A report's position is at least one more than the number of reports
      with a higher percentage, and exactly that unless it ties the report
      placed before it. */
  lemma RankedReportsCompetition(reports: seq<StudentReport>, ranked: seq<StudentReport>, i: nat)
    requires |ranked| == |reports|
    requires forall k :: 0 <= k < |ranked| ==> ranked[k] == SortDesc(reports, PercentageKey)[k].(position := k + 1)
    requires i < |ranked|
    ensures 1 + CountAbove(reports, PercentageKey, ranked[i].percentage) <= ranked[i].position
    ensures i == 0 || ranked[i].percentage < ranked[i - 1].percentage ==>
      ranked[i].position == 1 + CountAbove(reports, PercentageKey, ranked[i].percentage)
  {
    RankedPosition(reports, SortDesc(reports, PercentageKey), ranked, i);
  }

  lemma RankedPosition(reports: seq<StudentReport>, sorted: seq<StudentReport>, ranked: seq<StudentReport>, i: nat)
    requires SortedDesc(sorted, PercentageKey) && multiset(sorted) == multiset(reports)
    requires |ranked| == |sorted| && i < |ranked|
    requires forall k :: 0 <= k < |ranked| ==> ranked[k] == sorted[k].(position := k + 1)
    ensures 1 + CountAbove(reports, PercentageKey, ranked[i].percentage) <= ranked[i].position
    ensures i == 0 || ranked[i].percentage < ranked[i - 1].percentage ==>
      ranked[i].position == 1 + CountAbove(reports, PercentageKey, ranked[i].percentage)
  {
    assert ranked[i].percentage == PercentageKey(sorted[i]) && ranked[i].position == i + 1;
    RankInReordering(reports, sorted, PercentageKey, i);
    if i > 0 && ranked[i].percentage < ranked[i - 1].percentage {
      assert ranked[i - 1].percentage == PercentageKey(sorted[i - 1]);
    }
  }

  /** The reports with their positions cleared. */
  function Unranked(reports: seq<StudentReport>): (rs: seq<StudentReport>)
    ensures |rs| == |reports|
    ensures forall i :: 0 <= i < |reports| ==> rs[i] == reports[i].(position := 0)
  {
    seq(|reports|, i requires 0 <= i < |reports| => reports[i].(position := 0))
  }

  // ---------------------------------------------------------------------------
  // Subject analytics

  function RowSubject(r: ReportRow): string { r.row.subjectId }

  /** An entry of the subject map: the subject of the first row seen for it
      and the rows collected for it. */
  datatype SubjectGroup = SubjectGroup(subject: Subject, rows: seq<ReportRow>)

  /** The subject map after the given rows: a subject seen for the first
      time gets an entry with that row's subject, and every row is pushed
      onto its subject's list. */
  function Grouped(rows: seq<ReportRow>): map<string, SubjectGroup> {
    if rows == [] then map[]
    else
      GroupedAfter(Grouped(rows[..|rows| - 1]), rows[|rows| - 1])
  }

  /** The subject map after one more row. */
  function GroupedAfter(groups: map<string, SubjectGroup>, r: ReportRow): map<string, SubjectGroup> {
    var id := r.row.subjectId;
    var entry := if id in groups then groups[id] else SubjectGroup(r.subject, []);
    groups[id := entry.(rows := entry.rows + [r])]
  }

  /** The listed subjects after one more row of subject `id`. */
  function KeysInOrderAfter(ks: seq<string>, id: string): seq<string> {
    if id in ks then ks else ks + [id]
  }

  /** The map has an entry for each subject with a row; the entry holds that
      subject's rows in order, so none is empty, and the subject of its first
      row. */
  lemma GroupedEntries(rows: seq<ReportRow>)
    ensures forall id :: id in Grouped(rows) <==> id in KeysInOrder(rows, RowSubject)
    ensures forall id :: id in Grouped(rows) ==> Grouped(rows)[id].rows == Filter(rows, OfSubject(id))
    ensures forall id :: id in Grouped(rows) ==>
      Grouped(rows)[id].rows != [] && Grouped(rows)[id].subject == Grouped(rows)[id].rows[0].subject
  {
    forall id
      ensures id in Grouped(rows) <==> id in KeysInOrder(rows, RowSubject)
      ensures id in Grouped(rows) ==> Grouped(rows)[id].rows == Filter(rows, OfSubject(id))
      ensures id in Grouped(rows) ==>
        Grouped(rows)[id].rows != [] && Grouped(rows)[id].subject == Grouped(rows)[id].rows[0].subject
    {
      GroupedKey(rows, id);
      GroupedRows(rows, id);
    }
  }

  /** The entry of one subject holds its rows in order, and the subject of
      the first of them. */
  lemma {:induction false} GroupedRows(rows: seq<ReportRow>, id: string)
    ensures id in Grouped(rows) ==>
      && Grouped(rows)[id].rows == Filter(rows, OfSubject(id))
      && Grouped(rows)[id].rows != []
      && Grouped(rows)[id].subject == Grouped(rows)[id].rows[0].subject
  {
    if rows != [] {
      var pre, r := rows[..|rows| - 1], rows[|rows| - 1];
      GroupedRows(pre, id);
      assert rows == pre + [r];
      FilterSnoc(pre, r, id);
      if r.row.subjectId == id && id !in Grouped(pre) {
        GroupedKey(pre, id);
        forall j | 0 <= j < |pre| ensures !OfSubject(id)(pre[j]) {
          assert RowSubject(pre[j]) != id;
        }
        FilterNone(pre, OfSubject(id));
      }
    }
  }

  /** The map has an entry exactly for the subjects with a row. */
  lemma {:induction false} GroupedKey(rows: seq<ReportRow>, id: string)
    ensures id in Grouped(rows) <==> id in KeysInOrder(rows, RowSubject)
  {
    if rows != [] {
      var pre, r := rows[..|rows| - 1], rows[|rows| - 1];
      GroupedKey(pre, id);
      assert rows == pre + [r];
      KeysInOrderSnoc(pre, r, RowSubject);
    }
  }

  /** The loop building the subject map, with the order its entries are
      listed in. */
  method GroupBySubject(rows: seq<ReportRow>) returns (order: seq<string>, groups: map<string, SubjectGroup>)
    ensures order == KeysInOrder(rows, RowSubject) && groups == Grouped(rows)
  {
    order, groups := [], map[];
    for k := 0 to |rows|
      invariant order == KeysInOrder(rows[..k], RowSubject)
      invariant groups == Grouped(rows[..k])
    {
      var r := rows[k];
      var id := r.row.subjectId;
      GroupStep(rows, k);
      var entry := if id in groups then groups[id] else SubjectGroup(r.subject, []);
      if id !in groups {
        order := order + [id];
      }
      groups := groups[id := entry.(rows := entry.rows + [r])];
    }
    assert rows[..|rows|] == rows;
  }

  /** One more row: its subject is listed if it is new, and the row is
      pushed onto its subject's entry. */
  lemma GroupStep(rows: seq<ReportRow>, k: nat)
    requires k < |rows|
    ensures rows[k].row.subjectId in Grouped(rows[..k])
      <==> rows[k].row.subjectId in KeysInOrder(rows[..k], RowSubject)
    ensures KeysInOrder(rows[..k + 1], RowSubject)
      == KeysInOrderAfter(KeysInOrder(rows[..k], RowSubject), rows[k].row.subjectId)
    ensures Grouped(rows[..k + 1]) == GroupedAfter(Grouped(rows[..k]), rows[k])
  {
    var r, pre := rows[k], rows[..k];
    assert rows[..k + 1][..k] == pre && rows[..k + 1][k] == r;
    KeysInOrderSnoc(pre, r, RowSubject);
    assert rows[..k + 1] == pre + [r];
    GroupedKey(pre, r.row.subjectId);
  }

  lemma FilterSnoc(rows: seq<ReportRow>, r: ReportRow, id: string)
    ensures Filter(rows + [r], OfSubject(id)) == Filter(rows, OfSubject(id)) + if r.row.subjectId == id then [r] else []
  {
    assert (rows + [r])[..|rows|] == rows;
  }

  /** `s.grade || 'N/A'`: a missing or empty grade is counted as N/A. */
  function GradeLabel(r: ReportRow): string {
    if r.row.grade.Some? && r.row.grade.value != "" then r.row.grade.value else "N/A"
  }

  function GradeLabels(rows: seq<ReportRow>): (ls: seq<string>)
    ensures |ls| == |rows|
    ensures forall i :: 0 <= i < |rows| ==> ls[i] == GradeLabel(rows[i])
  {
    seq(|rows|, i requires 0 <= i < |rows| => GradeLabel(rows[i]))
  }

  /** A row at or above the passing mark. */
  function AtLeast(passingMarks: real): ReportRow -> bool {
    (r: ReportRow) => r.row.marksObtained >= passingMarks
  }

  datatype SubjectAnalytic = SubjectAnalytic(
    subject: Subject,
    averageMarks: real,
    highestMarks: real,
    lowestMarks: real,
    passRate: real,
    gradeDistribution: map<string, nat>)

  /** What the analytic of a subject with the given (non-empty) rows holds:
      the mean mark rounded to cents, the highest and lowest raw marks, the
      share of rows at or above the subject's passing mark as a percentage
      rounded to cents, and the number of rows with each grade label. */
  ghost predicate DescribesSubject(a: SubjectAnalytic, subject: Subject, rows: seq<ReportRow>)
    requires rows != []
  {
    && a.subject == subject
    && a.averageMarks == Round2(SumOf(rows, RowMarks) / |rows| as real)
    && a.highestMarks == MaxOf(rows, RowMarks)
    && a.lowestMarks == MinOf(rows, RowMarks)
    && a.passRate == SubjectPassRate(rows, subject.passingMarks)
    && (forall g :: g in a.gradeDistribution <==> g in GradeLabels(rows))
    && (forall g :: g in a.gradeDistribution ==> a.gradeDistribution[g] == Occurrences(GradeLabels(rows), g))
  }

  /** The grade distribution of a subject, counted row by row. */
  method CountGrades(rows: seq<ReportRow>) returns (gradeDistribution: map<string, nat>)
    ensures forall g :: g in gradeDistribution <==> g in GradeLabels(rows)
    ensures forall g :: g in gradeDistribution ==> gradeDistribution[g] == Occurrences(GradeLabels(rows), g)
  {
    var labels := GradeLabels(rows);
    gradeDistribution := map[];
    for i := 0 to |rows|
      invariant gradeDistribution == Counted(map[], labels[..i])
    {
      var grade := GradeLabel(rows[i]);
      assert labels[..i + 1][..i] == labels[..i];
      gradeDistribution := gradeDistribution[grade := (if grade in gradeDistribution then gradeDistribution[grade] else 0) + 1];
    }
    assert labels[..|rows|] == labels;
    CountedKeys(map[], labels);
    CountedOccurrences(map[], labels);
  }

  /** The analytic of one entry of the subject map. */
  method AnalyzeSubject(subject: Subject, rows: seq<ReportRow>) returns (a: SubjectAnalytic)
    requires rows != []
    ensures DescribesSubject(a, subject, rows)
    ensures 0.0 <= a.passRate <= 100.0
    ensures a.lowestMarks <= a.highestMarks
  {
    var n := |rows| as real;
    var averageMarks := SumOf(rows, RowMarks) / n;
    var highestMarks := MaxOf(rows, RowMarks);
    var lowestMarks := MinOf(rows, RowMarks);
    ExtremesOrdered(rows);
    var passRate := SubjectPassRate(rows, subject.passingMarks);
    SubjectPassRateBounds(rows, subject.passingMarks);
    var gradeDistribution := CountGrades(rows);
    a := SubjectAnalytic(subject, Round2(averageMarks), highestMarks, lowestMarks, passRate, gradeDistribution);
  }

  lemma ExtremesOrdered(rows: seq<ReportRow>)
    requires rows != []
    ensures MinOf(rows, RowMarks) <= MaxOf(rows, RowMarks)
  {
    assert MinOf(rows, RowMarks) <= RowMarks(rows[0]) <= MaxOf(rows, RowMarks);
  }

  /** A pass rate lies in [0, 100]. */
  lemma SubjectPassRateBounds(rows: seq<ReportRow>, passingMarks: real)
    requires rows != []
    ensures 0.0 <= SubjectPassRate(rows, passingMarks) <= 100.0
  {
    Round2Percent(Count(rows, AtLeast(passingMarks)) as real, |rows| as real);
  }

  /** With marks in whole cents (as the score validation's half steps are),
      the rounded average of a subject lies between its lowest and highest
      mark. */
  lemma SubjectAverageBetween(rows: seq<ReportRow>)
    requires rows != []
    requires forall i :: 0 <= i < |rows| ==> IsCents(rows[i].row.marksObtained)
    ensures MinOf(rows, RowMarks) <= Round2(SumOf(rows, RowMarks) / |rows| as real) <= MaxOf(rows, RowMarks)
  {
    RoundedMeanBetween(rows, RowMarks);
  }

  /** The pass rate of a subject: the share of rows at or above the passing
      mark as a percentage rounded to cents. */
  function SubjectPassRate(rows: seq<ReportRow>, passingMarks: real): real
    requires rows != []
  {
    Round2(Count(rows, AtLeast(passingMarks)) as real / |rows| as real * 100.0)
  }

  /** The pass mark is inclusive: when every mark reaches it the pass rate is
      100. */
  lemma SubjectAllPass(rows: seq<ReportRow>, passingMarks: real)
    requires rows != []
    requires forall i :: 0 <= i < |rows| ==> rows[i].row.marksObtained >= passingMarks
    ensures SubjectPassRate(rows, passingMarks) == 100.0
  {
    var p := AtLeast(passingMarks);
    FilterAll(rows, p);
    WholeShare(|rows| as real);
  }

  /** When no mark reaches the pass mark the pass rate is 0. */
  lemma SubjectNonePass(rows: seq<ReportRow>, passingMarks: real)
    requires rows != []
    requires forall i :: 0 <= i < |rows| ==> rows[i].row.marksObtained < passingMarks
    ensures SubjectPassRate(rows, passingMarks) == 0.0
  {
    FilterNone(rows, AtLeast(passingMarks));
    assert Count(rows, AtLeast(passingMarks)) == 0;
    NoShare(|rows| as real);
  }

  /** The grade counts of a subject add up to its number of rows, and N/A is
      counted exactly when some row has no grade (given no grade is itself
      called N/A). */
  lemma GradeDistributionCounts(dist: map<string, nat>, rows: seq<ReportRow>, keys: seq<string>)
    requires forall g :: g in dist <==> g in GradeLabels(rows)
    requires forall g :: g in dist ==> dist[g] == Occurrences(GradeLabels(rows), g)
    requires Distinct(keys)
    requires forall i :: 0 <= i < |keys| ==> keys[i] in dist
    requires forall g :: g in dist ==> g in keys
    ensures SumAt(dist, keys) == |rows|
  {
    var labels := GradeLabels(rows);
    forall i | 0 <= i < |labels| ensures labels[i] in keys {
      assert labels[i] in dist;
    }
    TallyTotal(dist, labels, keys);
  }

  /** N/A is a key of the grade counts exactly when some row has a missing
      or empty grade, provided no row is graded N/A itself. */
  lemma NotAvailableCounted(dist: map<string, nat>, rows: seq<ReportRow>)
    requires forall g :: g in dist <==> g in GradeLabels(rows)
    requires forall i :: 0 <= i < |rows| ==> rows[i].row.grade != Some("N/A")
    ensures "N/A" in dist <==> exists i :: 0 <= i < |rows| && (rows[i].row.grade.None? || rows[i].row.grade.value == "")
  {
    var labels := GradeLabels(rows);
    if "N/A" in dist {
      var i :| 0 <= i < |labels| && labels[i] == "N/A";
      assert GradeLabel(rows[i]) == "N/A";
    }
  }

  /** The analytics of the subjects, in the order the subject map lists them. */
  method AnalyzeSubjects(order: seq<string>, groups: map<string, SubjectGroup>) returns (analytics: seq<SubjectAnalytic>)
    requires forall i :: 0 <= i < |order| ==> order[i] in groups && groups[order[i]].rows != []
    ensures |analytics| == |order|
    ensures forall i :: 0 <= i < |order| ==>
      DescribesSubject(analytics[i], groups[order[i]].subject, groups[order[i]].rows)
  {
    analytics := [];
    for i := 0 to |order|
      invariant |analytics| == i
      invariant forall j :: 0 <= j < i ==>
        DescribesSubject(analytics[j], groups[order[j]].subject, groups[order[j]].rows)
    {
      var group := groups[order[i]];
      var a := AnalyzeSubject(group.subject, group.rows);
      analytics := analytics + [a];
    }
  }

  // ---------------------------------------------------------------------------
  // Class statistics

  function ReportPercentages(reports: seq<StudentReport>): (ps: seq<real>)
    ensures |ps| == |reports|
    ensures forall i :: 0 <= i < |reports| ==> ps[i] == reports[i].percentage
  {
    seq(|reports|, i requires 0 <= i < |reports| => reports[i].percentage)
  }

  /** A report at or above the class pass mark of 40 percent. */
  function PassesClass(r: StudentReport): bool { ReachesClassPass(r.percentage) }

  datatype ClassFigures = ClassFigures(classAverage: real, highestScore: real, lowestScore: real, passRate: real)

  /** The class statistics: the mean percentage (0 for an empty class), the
      highest percentage or 0, the lowest percentage or 100, and the share
      of students at or above 40 percent (0 for an empty class), each
      rounded to cents. */
  function ClassFiguresOf(reports: seq<StudentReport>): ClassFigures {
    var ps := ReportPercentages(reports);
    var n := |reports| as real;
    var classAverage := if |ps| > 0 then SumOf(ps, Identity) / n else 0.0;
    var highestScore := MaxOf(ps + [0.0], Identity);
    var lowestScore := MinOf(ps + [100.0], Identity);
    var passedStudents := Count(reports, PassesClass);
    var passRate := if |reports| > 0 then passedStudents as real / n * 100.0 else 0.0;
    ClassFigures(Round2(classAverage), Round2(highestScore), Round2(lowestScore), Round2(passRate))
  }

  /** An empty class has average 0, highest score 0, lowest score 100 and
      pass rate 0. */
  lemma EmptyClassFigures()
    ensures ClassFiguresOf([]) == ClassFigures(0.0, 0.0, 100.0, 0.0)
  {
    assert ReportPercentages([]) + [0.0] == [0.0];
    assert ReportPercentages([]) + [100.0] == [100.0];
    Round2OfCents(0.0);
    Round2OfCents(100.0);
  }

  /** The highest score is never below 0, the lowest never above 100, and
      the pass rate lies in [0, 100]. */
  lemma ClassFiguresBounds(reports: seq<StudentReport>)
    ensures ClassFiguresOf(reports).highestScore >= 0.0
    ensures ClassFiguresOf(reports).lowestScore <= 100.0
    ensures 0.0 <= ClassFiguresOf(reports).passRate <= 100.0
  {
    var ps := ReportPercentages(reports);
    PaddedMaxAtLeastZero(ps);
    PaddedMinAtMostHundred(ps);
    PassRateBounds(reports);
  }

  lemma PaddedMaxAtLeastZero(ps: seq<real>)
    ensures Round2(MaxOf(ps + [0.0], Identity)) >= 0.0
  {
    assert (ps + [0.0])[|ps|] == 0.0;
    Round2Monotone(0.0, MaxOf(ps + [0.0], Identity));
    Round2OfCents(0.0);
  }

  lemma PaddedMinAtMostHundred(ps: seq<real>)
    ensures Round2(MinOf(ps + [100.0], Identity)) <= 100.0
  {
    assert (ps + [100.0])[|ps|] == 100.0;
    Round2Monotone(MinOf(ps + [100.0], Identity), 100.0);
    Round2OfCents(100.0);
  }

  lemma PassRateBounds(reports: seq<StudentReport>)
    ensures var n := |reports| as real;
      0.0 <= Round2(if |reports| > 0 then Count(reports, PassesClass) as real / n * 100.0 else 0.0) <= 100.0
  {
    if |reports| > 0 {
      Round2Percent(Count(reports, PassesClass) as real, |reports| as real);
    } else {
      Round2OfCents(0.0);
    }
  }

  /** In a non-empty class the class average lies between the lowest and
      the highest score. */
  lemma ClassAverageBetween(reports: seq<StudentReport>)
    requires reports != []
    ensures ClassFiguresOf(reports).lowestScore <= ClassFiguresOf(reports).classAverage <= ClassFiguresOf(reports).highestScore
  {
    PaddedMeanBetween(ReportPercentages(reports));
  }

  /** The rounded mean lies between the rounded minimum padded with 100 and
      the rounded maximum padded with 0. */
  lemma PaddedMeanBetween(ps: seq<real>)
    requires ps != []
    ensures Round2(MinOf(ps + [100.0], Identity)) <= Round2(SumOf(ps, Identity) / |ps| as real)
    ensures Round2(SumOf(ps, Identity) / |ps| as real) <= Round2(MaxOf(ps + [0.0], Identity))
  {
    var lo, hi := MinOf(ps + [100.0], Identity), MaxOf(ps + [0.0], Identity);
    PaddedExtremesBound(ps);
    MeanWithin(ps, Identity, lo, hi);
    Round2Ordered(lo, SumOf(ps, Identity) / |ps| as real, hi);
  }

  lemma PaddedExtremesBound(ps: seq<real>)
    ensures forall i :: 0 <= i < |ps| ==>
      MinOf(ps + [100.0], Identity) <= Identity(ps[i]) <= MaxOf(ps + [0.0], Identity)
  {
    assert forall i :: 0 <= i < |ps| ==> (ps + [100.0])[i] == ps[i] && (ps + [0.0])[i] == ps[i];
  }

  // ---------------------------------------------------------------------------
  // The class report

  datatype ClassReport = ClassReport(
    className: string,
    section: string,
    students: seq<StudentReport>,
    subjectAnalytics: seq<SubjectAnalytic>,
    classAverage: real,
    highestScore: real,
    lowestScore: real,
    passRate: real)

  /** The aggregation of a class report: the class's reports ranked by
      percentage, one analytic per subject with a class row (in order of
      first appearance, each over that subject's class rows), and the class
      statistics of the ranked reports. */
  method BuildClassReport(className: string, section: string, students: seq<Student>, rows: seq<ReportRow>)
    returns (report: ClassReport)
    ensures report.className == className && report.section == section
    ensures |report.students| == |students|
    ensures forall i :: 0 <= i < |report.students| ==>
      report.students[i] == SortDesc(CollectedReports(students, rows), PercentageKey)[i].(position := i + 1)
    ensures var subjects := KeysInOrder(ClassScores(students, rows), RowSubject);
      |report.subjectAnalytics| == |subjects|
    ensures var subjects := KeysInOrder(ClassScores(students, rows), RowSubject);
      var groups := Grouped(ClassScores(students, rows));
      forall i :: 0 <= i < |subjects| ==>
        && subjects[i] in groups && groups[subjects[i]].rows != []
        && DescribesSubject(report.subjectAnalytics[i], groups[subjects[i]].subject, groups[subjects[i]].rows)
    ensures ClassFigures(report.classAverage, report.highestScore, report.lowestScore, report.passRate)
      == ClassFiguresOf(report.students)
  {
    var reports := CollectStudentReports(students, rows);
    var ranked := AssignPositions(reports);
    var classScores := ClassScores(students, rows);
    var order, groups := GroupBySubject(classScores);
    GroupedEntries(classScores);
    var analytics := AnalyzeSubjects(order, groups);
    var figures := ClassFiguresOf(ranked);
    report := ClassReport(className, section, ranked, analytics,
      figures.classAverage, figures.highestScore, figures.lowestScore, figures.passRate);
  }
}
