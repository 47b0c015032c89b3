/** The spreadsheet upload of one subject's scores: the rows after the
    header are classified into parsed entries (each with at most one error)
    and row errors, the valid entries are kept, and they become the score
    records sent for saving. Reading the file is not modelled: each cell
    arrives with its text and the number JavaScript's `Number` reads from
    that text once trimmed. */
module BulkScoreUpload {
  import opened Common
  import opened Text
  import opened Types

  // ---------------------------------------------------------------------------
  // Sheet rows

  /** A cell that is present: its text is `String(cell || '')`, so a cell
      JavaScript treats as false (0, `false`, NaN) has the empty text, and
      its number is `Number` of that text once trimmed, `None` where that
      is NaN. */
  datatype Cell = Cell(text: string, number: Option<real>)

  /** A row as `sheet_to_json` with `header: 1` gives it; holes and missing
      trailing cells are `None`. */
  type SheetRow = seq<Option<Cell>>

  function CellAt(row: SheetRow, k: nat): Option<Cell> {
    if k < |row| then row[k] else None
  }

  /** `String(row[k] || '').trim()`. */
  function CellText(row: SheetRow, k: nat): string {
    match CellAt(row, k)
    case None => ""
    case Some(c) => Trim(c.text)
  }

  /** `row.length > 0 && row[0]`: the row has a first cell with some text. */
  predicate KeepRow(row: SheetRow) {
    |row| > 0 && row[0].Some? && row[0].value.text != ""
  }

  /** The rows after the header, without the empty ones and those whose
      first cell is empty. */
  function DataRows(sheet: seq<SheetRow>): (rows: seq<SheetRow>)
    ensures forall i :: 0 <= i < |rows| ==> KeepRow(rows[i])
    ensures forall i :: 0 <= i < |rows| ==> exists j :: 1 <= j < |sheet| && rows[i] == sheet[j]
    ensures forall i :: 1 <= i < |sheet| && KeepRow(sheet[i]) ==> sheet[i] in rows
  {
    if sheet == [] then []
    else
      var body := sheet[1..];
      assert forall i :: 1 <= i < |sheet| ==> sheet[i] == body[i - 1];
      assert forall j :: 0 <= j < |body| ==> body[j] == sheet[j + 1];
      Filter(body, KeepRow)
  }

  /** `Number(marksStr)`: an empty marks text reads as 0. */
  function MarksNumber(row: SheetRow): (n: Option<real>)
    ensures CellText(row, 2) == "" ==> n == Some(0.0)
    ensures CellText(row, 2) != "" ==> n == CellAt(row, 2).value.number
  {
    if CellText(row, 2) == "" then Some(0.0) else CellAt(row, 2).value.number
  }

  /** `selectedSubject?.maxMarks || 100`: the maximum of the chosen subject,
      or 100 when there is none or it is 0. The subjects hook names the field
      `max_marks`, so in the running application the read is always absent
      and the maximum is always 100; the model keeps the read as a
      parameter. */
  function MaxMarksFor(selectedMaxMarks: Option<real>): (m: real)
    ensures selectedMaxMarks.None? ==> m == 100.0
    ensures selectedMaxMarks.Some? && selectedMaxMarks.value == 0.0 ==> m == 100.0
    ensures selectedMaxMarks.Some? && selectedMaxMarks.value != 0.0 ==> m == selectedMaxMarks.value
  {
    if selectedMaxMarks.Some? && selectedMaxMarks.value != 0.0 then selectedMaxMarks.value else 100.0
  }

  // ---------------------------------------------------------------------------
  // Classifying one row

  /** The error attached to a parsed entry. The range message renders the
      maximum with JavaScript's number formatting, so the maximum is kept. */
  datatype UploadError = StudentNotFound | InvalidMarksFormat | MarksOutOfRange(maxMarks: real)

  function ErrorMessage(e: UploadError, maxMarksText: string): string {
    match e
    case StudentNotFound => "Student not found"
    case InvalidMarksFormat => "Invalid marks format"
    case MarksOutOfRange(_) => "Marks must be between 0 and " + maxMarksText
  }

  datatype ParsedScore = ParsedScore(
    rollNumber: string,
    studentName: string,
    marksObtained: real,
    remarks: string,
    studentId: Option<string>,
    error: Option<UploadError>)

  /** A kept row either has no roll number, which is reported in the error
      list, or becomes a parsed entry. */
  datatype RowOutcome = MissingRollNumber(message: string) | Entry(score: ParsedScore)

  /** `students.find(s => s.rollNumber === rollNumber)`: the first index
      with that roll number, or -1. */
  function FindByRollNumber(students: seq<Student>, rollNumber: string): (k: int)
    ensures -1 <= k < |students|
    ensures k >= 0 ==> students[k].rollNumber == rollNumber
    ensures k >= 0 ==> forall j :: 0 <= j < k ==> students[j].rollNumber != rollNumber
    ensures k == -1 <==> forall j :: 0 <= j < |students| ==> students[j].rollNumber != rollNumber
  {
    if students == [] then -1
    else if students[0].rollNumber == rollNumber then 0
    else
      var k := FindByRollNumber(students[1..], rollNumber);
      if k == -1 then -1 else k + 1
  }

  /** The row-error message for the kept row at `index`. The number counts
      kept rows, not sheet lines. */
  function MissingRollMessage(index: nat): string {
    "Row " + NatToString(index + 2) + ": Missing roll number"
  }

  /** One pass of the row loop, with its checks in order: roll number
      present, student found (an unknown student keeps `Number(marks) || 0`
      and no id), marks numeric, marks within [0, maxMarks]. */
  function ClassifyRow(row: SheetRow, index: nat, students: seq<Student>, maxMarks: real): (o: RowOutcome)
    ensures o.MissingRollNumber? <==> CellText(row, 0) == ""
    ensures o.MissingRollNumber? ==> o.message == MissingRollMessage(index)
    ensures o.Entry? ==> o.score.rollNumber == CellText(row, 0) && o.score.remarks == CellText(row, 3)
    ensures o.Entry? ==>
      (o.score.error == Some(StudentNotFound) <==> FindByRollNumber(students, CellText(row, 0)) == -1)
    ensures o.Entry? && o.score.error == Some(StudentNotFound) ==>
      o.score.studentId.None? && o.score.studentName == CellText(row, 1)
      && o.score.marksObtained == MarksNumber(row).GetOr(0.0)
    ensures o.Entry? && o.score.error != Some(StudentNotFound) ==>
      var student := students[FindByRollNumber(students, CellText(row, 0))];
      o.score.studentId == Some(student.id) && o.score.studentName == student.name
    ensures o.Entry? && o.score.error != Some(StudentNotFound) ==>
      (o.score.error == Some(InvalidMarksFormat) <==> MarksNumber(row).None?)
    ensures o.Entry? && o.score.error != Some(StudentNotFound) && MarksNumber(row).Some? ==>
      o.score.marksObtained == MarksNumber(row).value
      && (o.score.error.None? <==> 0.0 <= MarksNumber(row).value <= maxMarks)
      && (o.score.error.Some? ==> o.score.error == Some(MarksOutOfRange(maxMarks)))
  {
    var rollNumber := CellText(row, 0);
    var studentName := CellText(row, 1);
    var remarks := CellText(row, 3);
    var marks := MarksNumber(row);
    if rollNumber == "" then MissingRollNumber(MissingRollMessage(index))
    else
      var k := FindByRollNumber(students, rollNumber);
      if k == -1 then
        Entry(ParsedScore(rollNumber, studentName, marks.GetOr(0.0), remarks, None, Some(StudentNotFound)))
      else
        var student := students[k];
        if marks.None? then
          Entry(ParsedScore(rollNumber, student.name, 0.0, remarks, Some(student.id), Some(InvalidMarksFormat)))
        else if marks.value < 0.0 || marks.value > maxMarks then
          Entry(ParsedScore(rollNumber, student.name, marks.value, remarks, Some(student.id), Some(MarksOutOfRange(maxMarks))))
        else
          Entry(ParsedScore(rollNumber, student.name, marks.value, remarks, Some(student.id), None))
  }

  /** A known student whose marks cell is missing or blank gets a valid
      score of 0 (given a non-negative maximum). */
  lemma EmptyMarksAccepted(row: SheetRow, index: nat, students: seq<Student>, maxMarks: real)
    requires CellText(row, 0) != "" && FindByRollNumber(students, CellText(row, 0)) >= 0
    requires CellText(row, 2) == "" && maxMarks >= 0.0
    ensures var o := ClassifyRow(row, index, students, maxMarks);
      o.Entry? && o.score.error.None? && o.score.marksObtained == 0.0 && o.score.studentId.Some?
  {
  }

  // ---------------------------------------------------------------------------
  // The row loop

  function Outcomes(rows: seq<SheetRow>, students: seq<Student>, maxMarks: real): (os: seq<RowOutcome>)
    ensures |os| == |rows|
    ensures forall i :: 0 <= i < |rows| ==> os[i] == ClassifyRow(rows[i], i, students, maxMarks)
  {
    seq(|rows|, i requires 0 <= i < |rows| => ClassifyRow(rows[i], i, students, maxMarks))
  }

  /** The parsed entries of the outcomes, in order. */
  function Entries(os: seq<RowOutcome>): (ps: seq<ParsedScore>)
    ensures |ps| <= |os|
    ensures forall j :: 0 <= j < |ps| ==> Entry(ps[j]) in os
  {
    if os == [] then []
    else
      var last := os[|os| - 1];
      Entries(os[..|os| - 1]) + if last.Entry? then [last.score] else []
  }

  /** The row errors of the outcomes, in order. */
  function Messages(os: seq<RowOutcome>): (ms: seq<string>)
    ensures |ms| <= |os|
    ensures forall j :: 0 <= j < |ms| ==> MissingRollNumber(ms[j]) in os
  {
    if os == [] then []
    else
      var last := os[|os| - 1];
      Messages(os[..|os| - 1]) + if last.MissingRollNumber? then [last.message] else []
  }

  /** `!s.error && s.studentId`: an empty id is as absent as a missing one. */
  predicate IsValidEntry(p: ParsedScore) {
    p.error.None? && p.studentId.Some? && p.studentId.value != ""
  }

  /** `handleFileUpload` after the file is read: the rows are classified in
      order into parsed entries and row errors, and the valid entries are
      kept. */
  method ClassifyRows(sheet: seq<SheetRow>, students: seq<Student>, maxMarks: real)
    returns (parsed: seq<ParsedScore>, errorsList: seq<string>, validScores: seq<ParsedScore>)
    ensures parsed == Entries(Outcomes(DataRows(sheet), students, maxMarks))
    ensures errorsList == Messages(Outcomes(DataRows(sheet), students, maxMarks))
    ensures validScores == Filter(parsed, IsValidEntry)
  {
    var rows := DataRows(sheet);
    ghost var os := Outcomes(rows, students, maxMarks);
    parsed, errorsList := [], [];
    for index := 0 to |rows|
      invariant parsed == Entries(os[..index])
      invariant errorsList == Messages(os[..index])
    {
      var outcome := ClassifyRow(rows[index], index, students, maxMarks);
      assert outcome == os[index];
      OutcomesStep(os, index);
      match outcome
      case MissingRollNumber(message) =>
        errorsList := errorsList + [message];
      case Entry(score) =>
        parsed := parsed + [score];
    }
    assert os[..|rows|] == os;
    validScores := Filter(parsed, IsValidEntry);
  }

  /** One more outcome adds its entry or its message. */
  lemma OutcomesStep(os: seq<RowOutcome>, index: nat)
    requires index < |os|
    ensures Entries(os[..index + 1]) == Entries(os[..index]) + if os[index].Entry? then [os[index].score] else []
    ensures Messages(os[..index + 1]) == Messages(os[..index]) + if os[index].MissingRollNumber? then [os[index].message] else []
  {
    assert os[..index + 1][..index] == os[..index];
  }

  /** Every kept row yields exactly one parsed entry or one row error. */
  lemma {:induction false} EveryRowAccounted(os: seq<RowOutcome>)
    ensures |Entries(os)| + |Messages(os)| == |os|
  {
    if os != [] {
      EveryRowAccounted(os[..|os| - 1]);
    }
  }

  /** A valid entry belongs to a student with its roll number, and its marks
      lie in [0, maxMarks]. */
  lemma ValidScoresInRange(sheet: seq<SheetRow>, students: seq<Student>, maxMarks: real, v: ParsedScore)
    requires v in Filter(Entries(Outcomes(DataRows(sheet), students, maxMarks)), IsValidEntry)
    ensures 0.0 <= v.marksObtained <= maxMarks
    ensures exists k :: 0 <= k < |students| && students[k].rollNumber == v.rollNumber && Some(students[k].id) == v.studentId
  {
    var rows := DataRows(sheet);
    var i := ValidEntryOrigin(Outcomes(rows, students, maxMarks), v);
    EntryFacts(rows[i], i, students, maxMarks);
  }

  /** A valid entry comes from some outcome. */
  lemma ValidEntryOrigin(os: seq<RowOutcome>, v: ParsedScore) returns (i: nat)
    requires v in Filter(Entries(os), IsValidEntry)
    ensures i < |os| && os[i] == Entry(v) && IsValidEntry(v)
  {
    var parsed := Entries(os);
    var j :| 0 <= j < |parsed| && parsed[j] == v;
    assert Entry(v) in os;
    i :| 0 <= i < |os| && os[i] == Entry(v);
  }

  /** What a valid outcome of one row carries. */
  lemma EntryFacts(row: SheetRow, index: nat, students: seq<Student>, maxMarks: real)
    requires ClassifyRow(row, index, students, maxMarks).Entry?
    requires IsValidEntry(ClassifyRow(row, index, students, maxMarks).score)
    ensures var v := ClassifyRow(row, index, students, maxMarks).score;
      && 0.0 <= v.marksObtained <= maxMarks
      && exists k :: 0 <= k < |students| && students[k].rollNumber == v.rollNumber && Some(students[k].id) == v.studentId
  {
    var k := FindByRollNumber(students, CellText(row, 0));
    assert k >= 0;
  }

  // ---------------------------------------------------------------------------
  // The upload

  /** A score as sent to the bulk insert. */
  datatype ScoreDraft = ScoreDraft(
    studentId: string,
    examId: string,
    subjectId: string,
    marksObtained: real,
    maxMarks: real,
    grade: string,
    gpa: real,
    remarks: string,
    teacherId: string)

  datatype UploadRequest = MissingInformation | NoValidScores | Upload(payload: seq<ScoreDraft>)

  /** `handleUpload` up to the insert: it refuses without an exam and a
      subject, then without valid scores; otherwise it sends one draft per
      valid entry, in order, with the shared exam, subject and maximum, an
      empty grade, GPA 0 and no teacher. */
  function PrepareUpload(examId: string, subjectId: string, validScores: seq<ParsedScore>, maxMarks: real): (u: UploadRequest)
    requires forall i :: 0 <= i < |validScores| ==> validScores[i].studentId.Some?
    ensures u.MissingInformation? <==> examId == "" || subjectId == ""
    ensures u.NoValidScores? <==> examId != "" && subjectId != "" && validScores == []
    ensures u.Upload? ==> |u.payload| == |validScores| > 0
    ensures u.Upload? ==> forall i :: 0 <= i < |validScores| ==>
      u.payload[i] == ScoreDraft(validScores[i].studentId.value, examId, subjectId,
        validScores[i].marksObtained, maxMarks, "", 0.0, validScores[i].remarks, "")
  {
    if examId == "" || subjectId == "" then MissingInformation
    else if validScores == [] then NoValidScores
    else Upload(seq(|validScores|, i requires 0 <= i < |validScores| =>
      ScoreDraft(validScores[i].studentId.value, examId, subjectId,
        validScores[i].marksObtained, maxMarks, "", 0.0, validScores[i].remarks, "")))
  }

  /** The entries `ClassifyRows` keeps, as a function of the sheet. */
  function ValidScores(sheet: seq<SheetRow>, students: seq<Student>, maxMarks: real): seq<ParsedScore> {
    Filter(Entries(Outcomes(DataRows(sheet), students, maxMarks)), IsValidEntry)
  }

  /** Every kept entry has a student id and marks in [0, maxMarks]. */
  lemma ValidScoresUploadable(sheet: seq<SheetRow>, students: seq<Student>, maxMarks: real)
    ensures var valid := ValidScores(sheet, students, maxMarks);
      forall i :: 0 <= i < |valid| ==> valid[i].studentId.Some? && 0.0 <= valid[i].marksObtained <= maxMarks
  {
    var valid := ValidScores(sheet, students, maxMarks);
    forall i | 0 <= i < |valid|
      ensures valid[i].studentId.Some? && 0.0 <= valid[i].marksObtained <= maxMarks
    {
      ValidScoresInRange(sheet, students, maxMarks, valid[i]);
    }
  }

  /** Uploading what `ClassifyRows` keeps sends only drafts whose marks lie
      in [0, maxMarks]. */
  lemma UploadedMarksInRange(sheet: seq<SheetRow>, students: seq<Student>, maxMarks: real, examId: string, subjectId: string)
    ensures var valid := ValidScores(sheet, students, maxMarks);
      (forall i :: 0 <= i < |valid| ==> valid[i].studentId.Some?)
      && var u := PrepareUpload(examId, subjectId, valid, maxMarks);
      u.Upload? ==> forall i :: 0 <= i < |u.payload| ==> 0.0 <= u.payload[i].marksObtained <= maxMarks
  {
    ValidScoresUploadable(sheet, students, maxMarks);
  }
}
