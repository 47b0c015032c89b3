/** Moving scores between the application's record and the database row:
    reading a row, building the row to insert, and building the partial row
    of an update. Grades stored with a row are always derived from its marks
    with the default grade scale. */
module ScoreRecords {
  import opened Common
  import opened Types
  import opened GradeCalculation
  import opened ExamStore

  /** A row of the `scores` table. The nullable columns are options. */
  datatype DbScore = DbScore(
    id: string,
    studentId: string,
    examId: string,
    subjectId: string,
    marksObtained: real,
    maxMarks: real,
    grade: Option<string>,
    gpa: Option<real>,
    remarks: Option<string>,
    teacherId: Option<string>,
    enteredAt: string,
    updatedAt: string)

  /** The columns written when a score is inserted; the database supplies
      the id and the timestamps. */
  datatype DbScoreInsert = DbScoreInsert(
    studentId: string,
    examId: string,
    subjectId: string,
    marksObtained: real,
    maxMarks: real,
    grade: string,
    gpa: real,
    remarks: Option<string>,
    teacherId: string)

  /** The columns an update may write; `None` leaves a column out of the
      payload, and `remarks` may be written as null. */
  datatype DbScoreUpdate = DbScoreUpdate(
    marksObtained: Option<real>,
    maxMarks: Option<real>,
    grade: Option<string>,
    gpa: Option<real>,
    remarks: Option<Option<string>>)

  /** `transformDatabaseScore`: ids, marks and timestamps are copied; a null
      grade, remarks or teacher becomes the empty string and a null GPA 0. */
  function TransformDatabaseScore(row: DbScore): (s: Score)
    ensures s.id == row.id && s.studentId == row.studentId && s.examId == row.examId
      && s.subjectId == row.subjectId
    ensures s.marksObtained == row.marksObtained && s.maxMarks == row.maxMarks
    ensures s.enteredAt == row.enteredAt && s.updatedAt == row.updatedAt
    ensures s.grade == (if row.grade.Some? then row.grade.value else "")
    ensures s.gpa == (if row.gpa.Some? then row.gpa.value else 0.0)
    ensures s.remarks.Some? && s.remarks.value == (if row.remarks.Some? then row.remarks.value else "")
    ensures s.teacherId == (if row.teacherId.Some? then row.teacherId.value else "")
  {
    Score(row.id, row.studentId, row.examId, row.subjectId, row.marksObtained, row.maxMarks,
      row.grade.GetOr(""), row.gpa.GetOr(0.0), Some(row.remarks.GetOr("")),
      row.teacherId.GetOr(""), row.enteredAt, row.updatedAt)
  }

  /** The grade the score hooks store: `calculateGrade` of the unrounded
      `marks / max * 100`, with the default scale. A zero maximum makes that
      quotient infinite or NaN in floating point, which lies in no band. */
  function GradeOfRatio(marksObtained: real, maxMarks: real): (g: GradeInfo)
    ensures maxMarks == 0.0 ==> g == NotAvailable
    ensures maxMarks != 0.0 ==> g == CalculateGrade(marksObtained / maxMarks * 100.0, DefaultGradeScale)
  {
    if maxMarks == 0.0 then NotAvailable
    else CalculateGrade(marksObtained / maxMarks * 100.0, DefaultGradeScale)
  }

  /** The grade lookup of the score hooks as written: `calculateGrade` of the
      unrounded ratio with `scale` the argument passed, `None` for none. The
      hooks pass none, and the lookup then throws (`None`); with the default
      scale it is GradeOfRatio. */
  function GradeOfRatioCall(marksObtained: real, maxMarks: real, scale: Option<GradeScale>): (g: Option<GradeInfo>)
    ensures g.None? <==> scale.None?
    ensures scale.Some? && maxMarks == 0.0 ==> g == Some(NotAvailable)
    ensures scale == Some(DefaultGradeScale) ==> g == Some(GradeOfRatio(marksObtained, maxMarks))
  {
    if scale.None? then None
    else if maxMarks == 0.0 then Some(NotAvailable)
    else CalculateGradeCall(marksObtained / maxMarks * 100.0, scale)
  }

  /** `remarks || null`: an absent or empty remark is stored as null. */
  function RemarksColumn(remarks: Option<string>): (c: Option<string>)
    ensures c.None? <==> remarks.None? || remarks.value == ""
    ensures c.Some? ==> c == remarks
  {
    if remarks.Some? && remarks.value != "" then remarks else None
  }

  /** `transformToInsert`: the score's ids, marks and remarks, the grade and
      GPA derived from its marks (whatever grade it carried), and the
      teacher making the call. The score's id and timestamps are not sent. */
  function TransformToInsert(score: Score, teacherId: string): (row: DbScoreInsert)
    ensures row.studentId == score.studentId && row.examId == score.examId && row.subjectId == score.subjectId
    ensures row.marksObtained == score.marksObtained && row.maxMarks == score.maxMarks
    ensures row.grade == GradeOfRatio(score.marksObtained, score.maxMarks).grade
    ensures row.gpa == GradeOfRatio(score.marksObtained, score.maxMarks).gpa
    ensures row.remarks.None? <==> score.remarks.None? || score.remarks.value == ""
    ensures row.remarks.Some? ==> row.remarks == score.remarks
    ensures row.teacherId == teacherId
  {
    var gradeInfo := GradeOfRatio(score.marksObtained, score.maxMarks);
    DbScoreInsert(score.studentId, score.examId, score.subjectId, score.marksObtained, score.maxMarks,
      gradeInfo.grade, gradeInfo.gpa, RemarksColumn(score.remarks), teacherId)
  }

  /** `transformToInsert` as written, with `scale` the argument its
      `calculateGrade` call receives: it throws (`None`) when there is none,
      and with the default scale it builds the row of TransformToInsert. */
  function TransformToInsertWith(score: Score, teacherId: string, scale: Option<GradeScale>): (row: Option<DbScoreInsert>)
    ensures row.None? <==> scale.None?
    ensures scale == Some(DefaultGradeScale) ==> row == Some(TransformToInsert(score, teacherId))
    ensures row.Some? ==> var g := GradeOfRatioCall(score.marksObtained, score.maxMarks, scale).value;
      && row.value.grade == g.grade && row.value.gpa == g.gpa
      && row.value.studentId == score.studentId && row.value.marksObtained == score.marksObtained
  {
    match GradeOfRatioCall(score.marksObtained, score.maxMarks, scale)
    case None => None
    case Some(gradeInfo) =>
      Some(DbScoreInsert(score.studentId, score.examId, score.subjectId, score.marksObtained, score.maxMarks,
        gradeInfo.grade, gradeInfo.gpa, RemarksColumn(score.remarks), teacherId))
  }

  /** `scores.map(score => transformToInsert(score, user.id))` of the bulk
      insert, with `scale` the argument each `calculateGrade` call receives:
      without one the first score throws, so every non-empty batch fails;
      with the default scale every row is TransformToInsert's. */
  function InsertRowsWith(scores: seq<Score>, teacherId: string, scale: Option<GradeScale>): (rows: Option<seq<DbScoreInsert>>)
    ensures rows.None? <==> scale.None? && scores != []
    ensures rows.Some? ==>
      && |rows.value| == |scores|
      && forall i :: 0 <= i < |scores| ==> TransformToInsertWith(scores[i], teacherId, scale) == Some(rows.value[i])
    ensures scale == Some(DefaultGradeScale) ==>
      && rows.Some?
      && forall i :: 0 <= i < |scores| ==> rows.value[i] == TransformToInsert(scores[i], teacherId)
  {
    if scores == [] then Some([])
    else
      match InsertRowsWith(scores[..|scores| - 1], teacherId, scale)
      case None => None
      case Some(pre) =>
        match TransformToInsertWith(scores[|scores| - 1], teacherId, scale)
        case None => None
        case Some(last) => Some(pre + [last])
  }

  /** The row the database holds after an insert, given the id and
      timestamps it assigns. */
  function StoredRow(ins: DbScoreInsert, id: string, enteredAt: string, updatedAt: string): DbScore {
    DbScore(id, ins.studentId, ins.examId, ins.subjectId, ins.marksObtained, ins.maxMarks,
      Some(ins.grade), Some(ins.gpa), ins.remarks, Some(ins.teacherId), enteredAt, updatedAt)
  }

  /** Inserting a score and reading it back returns the same score except
      that grade and GPA are re-derived from the marks, the teacher is the
      caller, an absent remark reads back as the empty one, and the id and
      timestamps are the database's. */
  lemma InsertThenRead(score: Score, teacherId: string, id: string, enteredAt: string, updatedAt: string)
    ensures var back := TransformDatabaseScore(StoredRow(TransformToInsert(score, teacherId), id, enteredAt, updatedAt));
      var g := GradeOfRatio(score.marksObtained, score.maxMarks);
      back == score.(id := id, enteredAt := enteredAt, updatedAt := updatedAt, grade := g.grade, gpa := g.gpa,
        teacherId := teacherId, remarks := Some(score.remarks.GetOr("")))
  {
  }

  /** The score hooks grade the unrounded percentage while the grade engine
      grades the rounded one, so the two can disagree on the same marks:
      22499 of 25000 is 89.996 percent, which falls in the gap between A and
      A+, but rounds to 90 percent, which is an A+. */
  lemma StoredGradeCanDifferFromEngine()
    ensures GradeOfRatio(22499.0, 25000.0) == NotAvailable
    ensures CalculatePercentage(22499.0, 25000.0) == 90.0
    ensures CalculateGrade(CalculatePercentage(22499.0, 25000.0), DefaultGradeScale).grade == "A+"
  {
    assert 22499.0 / 25000.0 * 100.0 == 89.996;
    assert (89.996 * 100.0 + 0.5).Floor == 9000;
  }

  /** The update payload as written, with `scale` the argument the
      `calculateGrade` call receives: without one the mutation throws
      (`None`) exactly when both marks and maximum are given, as only then is
      the grade looked up; otherwise the payload is built as in
      BuildUpdateData, with the grade from `scale`. */
  method BuildUpdateDataWith(updates: ScorePatch, scale: Option<GradeScale>) returns (r: Option<DbScoreUpdate>)
    ensures r.None? <==> scale.None? && updates.marksObtained.Some? && updates.maxMarks.Some?
    ensures r.Some? ==> var both := updates.marksObtained.Some? && updates.maxMarks.Some?;
      && (r.value.marksObtained.Some? <==> both)
      && (r.value.maxMarks.Some? <==> both)
      && (r.value.grade.Some? <==> both)
      && (r.value.gpa.Some? <==> both)
    ensures r.Some? && updates.marksObtained.Some? && updates.maxMarks.Some? ==>
      var g := GradeOfRatioCall(updates.marksObtained.value, updates.maxMarks.value, scale);
      && g.Some?
      && r.value.marksObtained == updates.marksObtained
      && r.value.maxMarks == updates.maxMarks
      && r.value.grade == Some(g.value.grade)
      && r.value.gpa == Some(g.value.gpa)
    ensures r.Some? ==> (r.value.remarks.Some? <==> updates.remarks.Some? && updates.remarks.value.Some?)
    ensures r.Some? && r.value.remarks.Some? ==> r.value.remarks.value == RemarksColumn(updates.remarks.value)
  {
    var updateData := DbScoreUpdate(None, None, None, None, None);
    if updates.marksObtained.Some? && updates.maxMarks.Some? {
      var gradeInfo := GradeOfRatioCall(updates.marksObtained.value, updates.maxMarks.value, scale);
      if gradeInfo.None? {
        return None;
      }
      updateData := updateData.(marksObtained := updates.marksObtained);
      updateData := updateData.(maxMarks := updates.maxMarks);
      updateData := updateData.(grade := Some(gradeInfo.value.grade));
      updateData := updateData.(gpa := Some(gradeInfo.value.gpa));
    }
    if updates.remarks.Some? && updates.remarks.value.Some? {
      updateData := updateData.(remarks := Some(RemarksColumn(updates.remarks.value)));
    }
    r := Some(updateData);
  }

  /** The update payload of `useUpdateScore` with the default scale: marks,
      maximum, grade and GPA are written only when both marks and maximum
      are given, with grade and GPA re-derived from them (a grade or GPA in
      the patch is never passed on); remarks are written when given, an
      empty remark as null. */
  method BuildUpdateData(updates: ScorePatch) returns (updateData: DbScoreUpdate)
    ensures var both := updates.marksObtained.Some? && updates.maxMarks.Some?;
      && (updateData.marksObtained.Some? <==> both)
      && (updateData.maxMarks.Some? <==> both)
      && (updateData.grade.Some? <==> both)
      && (updateData.gpa.Some? <==> both)
    ensures updates.marksObtained.Some? && updates.maxMarks.Some? ==>
      var g := GradeOfRatio(updates.marksObtained.value, updates.maxMarks.value);
      && updateData.marksObtained == updates.marksObtained
      && updateData.maxMarks == updates.maxMarks
      && updateData.grade == Some(g.grade)
      && updateData.gpa == Some(g.gpa)
    ensures updateData.remarks.Some? <==> updates.remarks.Some? && updates.remarks.value.Some?
    ensures updateData.remarks.Some? ==> updateData.remarks.value == RemarksColumn(updates.remarks.value)
  {
    var r := BuildUpdateDataWith(updates, Some(DefaultGradeScale));
    updateData := r.value;
  }
}
