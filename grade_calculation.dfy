/** The grade engine: mapping percentages to grade bands, percentages with
    two-decimal rounding, overall figures, pass status, grade distributions,
    tie-aware ranking, class statistics and the mark validator. */
module GradeCalculation {
  import opened Common
  import opened Types
  import opened Sorting
  import opened Tally

  /** What a grade lookup answers: a band's grade, GPA and description. */
  datatype GradeInfo = GradeInfo(grade: string, gpa: real, description: string)

  /** The answer when no band of the scale contains the percentage. */
  const NotAvailable := GradeInfo("N/A", 0.0, "Not Available")

  /** Both bounds of a band are inclusive. */
  predicate InBand(band: GradeRange, p: real) {
    band.minPercentage <= p <= band.maxPercentage
  }

  predicate NoBand(bands: seq<GradeRange>, p: real) {
    forall j :: 0 <= j < |bands| ==> !InBand(bands[j], p)
  }

  /** `k` is the first band, in scale order, containing `p`. */
  predicate IsFirstBand(bands: seq<GradeRange>, p: real, k: int) {
    0 <= k < |bands| && InBand(bands[k], p) && forall j :: 0 <= j < k ==> !InBand(bands[j], p)
  }

  function InfoOf(band: GradeRange): GradeInfo {
    GradeInfo(band.grade, band.gpa, band.description)
  }

  /** The position `grades.find` stops at, if any. */
  function FirstBand(bands: seq<GradeRange>, p: real): (k: Option<nat>)
    ensures k.Some? ==> IsFirstBand(bands, p, k.value)
    ensures k.None? <==> NoBand(bands, p)
  {
    if bands == [] then None
    else if InBand(bands[0], p) then Some(0)
    else
      match FirstBand(bands[1..], p)
      case None =>
        assert forall j :: 1 <= j < |bands| ==> bands[j] == bands[1..][j - 1];
        None
      case Some(k) =>
        assert forall j :: 1 <= j <= k + 1 ==> bands[j] == bands[1..][j - 1];
        Some(k + 1)
  }

  /** `calculateGrade`: the first band of the scale containing the percentage,
      or N/A when the percentage falls outside every band (below the lowest,
      above the highest, or in a gap between two bands). */
  function CalculateGrade(p: real, scale: GradeScale): (g: GradeInfo)
    ensures forall k :: IsFirstBand(scale.grades, p, k) ==> g == InfoOf(scale.grades[k])
    ensures NoBand(scale.grades, p) ==> g == NotAvailable
    ensures g == NotAvailable || exists k :: 0 <= k < |scale.grades| && g == InfoOf(scale.grades[k])
  {
    match FirstBand(scale.grades, p)
    case None => NotAvailable
    case Some(k) => InfoOf(scale.grades[k])
  }

  /** `calculateGrade(percentage, gradeScale)` as a caller invokes it, with
      `scale` the argument actually passed: `None` when the caller passes no
      scale. Reading `gradeScale.grades` of `undefined` then throws a
      `TypeError`, and the answer is `None`. */
  function CalculateGradeCall(p: real, scale: Option<GradeScale>): (r: Option<GradeInfo>)
    ensures r.None? <==> scale.None?
    ensures r.Some? ==> forall k :: IsFirstBand(scale.value.grades, p, k) ==> r.value == InfoOf(scale.value.grades[k])
    ensures r.Some? ==> (NoBand(scale.value.grades, p) ==> r.value == NotAvailable)
  {
    if scale.None? then None else Some(CalculateGrade(p, scale.value))
  }

  // ---------------------------------------------------------------------------
  // Percentages

  /** `calculatePercentage`: 0 for a zero maximum, otherwise the ratio as a
      percentage rounded to two decimals. */
  function CalculatePercentage(marksObtained: real, maxMarks: real): (r: real)
    ensures maxMarks == 0.0 ==> r == 0.0
    ensures maxMarks != 0.0 ==>
      marksObtained / maxMarks * 100.0 - 0.005 < r <= marksObtained / maxMarks * 100.0 + 0.005
    ensures IsCents(r)
  {
    if maxMarks == 0.0 then
      assert IsCents(0.0);
      0.0
    else Round2(marksObtained / maxMarks * 100.0)
  }

  /** Full marks are 100 percent, no marks are 0 percent. */
  lemma PercentageEnds(maxMarks: real)
    ensures maxMarks > 0.0 ==> CalculatePercentage(maxMarks, maxMarks) == 100.0
    ensures CalculatePercentage(0.0, maxMarks) == 0.0
  {
    assert IsCents(100.0) && IsCents(0.0);
    if maxMarks != 0.0 {
      assert maxMarks / maxMarks * 100.0 == 100.0;
      Round2OfCents(100.0);
      Round2OfCents(0.0);
    }
  }

  /** Marks between 0 and a positive maximum give a percentage in [0, 100]. */
  lemma PercentageBounds(marksObtained: real, maxMarks: real)
    requires 0.0 <= marksObtained <= maxMarks
    ensures 0.0 <= CalculatePercentage(marksObtained, maxMarks) <= 100.0
  {
    if maxMarks != 0.0 {
      Round2Percent(marksObtained, maxMarks);
    }
  }

  /** The grade of one score: its percentage looked up in the scale. */
  function GradeOfScore(s: Score, scale: GradeScale): GradeInfo {
    CalculateGrade(CalculatePercentage(s.marksObtained, s.maxMarks), scale)
  }

  function MarksOf(s: Score): real { s.marksObtained }

  function MaxMarksOf(s: Score): real { s.maxMarks }

  // ---------------------------------------------------------------------------
  // Overall GPA and percentage

  /** `calculateOverallGPA`: the mean GPA of the scores' grades, rounded to
      two decimals; 0 for no scores. The subjects are not consulted. */
  function CalculateOverallGPA(scores: seq<Score>, subjects: seq<Subject>, scale: GradeScale): (r: real)
    ensures scores == [] ==> r == 0.0
    ensures scores != [] ==>
      var mean := SumOf(scores, (s: Score) => GradeOfScore(s, scale).gpa) / |scores| as real;
      mean - 0.005 < r <= mean + 0.005
    ensures IsCents(r)
  {
    if scores == [] then
      assert IsCents(0.0);
      0.0
    else Round2(SumOf(scores, (s: Score) => GradeOfScore(s, scale).gpa) / |scores| as real)
  }

  /** When every band's GPA lies in [0, top] for a two-decimal `top`, so does
      the overall GPA (N/A contributes 0). */
  lemma OverallGPABounds(scores: seq<Score>, subjects: seq<Subject>, scale: GradeScale, top: real)
    requires IsCents(top) && top >= 0.0
    requires forall j :: 0 <= j < |scale.grades| ==> 0.0 <= scale.grades[j].gpa <= top
    ensures 0.0 <= CalculateOverallGPA(scores, subjects, scale) <= top
  {
    if scores != [] {
      var f := (s: Score) => GradeOfScore(s, scale).gpa;
      forall i | 0 <= i < |scores| ensures 0.0 <= f(scores[i]) <= top {
        var g := GradeOfScore(scores[i], scale);
        if g != NotAvailable {
          var k :| 0 <= k < |scale.grades| && g == InfoOf(scale.grades[k]);
        }
      }
      MeanWithin(scores, f, 0.0, top);
      assert IsCents(0.0);
      Round2Between(0.0, SumOf(scores, f) / |scores| as real, top);
    }
  }

  /** `calculateOverallPercentage`: total marks obtained as a percentage of
      total maximum marks; 0 for no scores. */
  function CalculateOverallPercentage(scores: seq<Score>): (r: real)
    ensures scores == [] ==> r == 0.0
    ensures scores != [] && SumOf(scores, MaxMarksOf) == 0.0 ==> r == 0.0
    ensures scores != [] && SumOf(scores, MaxMarksOf) != 0.0 ==>
      var ratio := SumOf(scores, MarksOf) / SumOf(scores, MaxMarksOf) * 100.0;
      ratio - 0.005 < r <= ratio + 0.005
    ensures IsCents(r)
  {
    if scores == [] then
      assert IsCents(0.0);
      0.0
    else CalculatePercentage(SumOf(scores, MarksOf), SumOf(scores, MaxMarksOf))
  }

  /** The overall percentage is the rounded ratio of the two totals, and lies
      in [0, 100] when every score's marks lie between 0 and its maximum. */
  lemma OverallPercentageBounds(scores: seq<Score>)
    requires forall i :: 0 <= i < |scores| ==> 0.0 <= scores[i].marksObtained <= scores[i].maxMarks
    ensures 0.0 <= CalculateOverallPercentage(scores) <= 100.0
  {
    if scores != [] {
      SumOfMonotone(scores, MarksOf, MaxMarksOf);
      SumOfBounds(scores, MarksOf, 0.0, MaxOf(scores, MarksOf));
      PercentageBounds(SumOf(scores, MarksOf), SumOf(scores, MaxMarksOf));
    }
  }

  // ---------------------------------------------------------------------------
  // Pass status

  /** `new Map(subjects.map(s => [s.id, s])).get(id)`: when two subjects share
      an id the later one wins. */
  function LookupSubject(subjects: seq<Subject>, id: string): (r: Option<Subject>)
    ensures r.None? <==> forall i :: 0 <= i < |subjects| ==> subjects[i].id != id
    ensures r.Some? ==> r.value.id == id
    ensures r.Some? ==> exists i :: (0 <= i < |subjects| && subjects[i] == r.value
      && forall j :: i < j < |subjects| ==> subjects[j].id != id)
  {
    if subjects == [] then None
    else if subjects[|subjects| - 1].id == id then Some(subjects[|subjects| - 1])
    else
      var pre := subjects[..|subjects| - 1];
      assert forall i :: 0 <= i < |pre| ==> pre[i] == subjects[i];
      LookupSubject(pre, id)
  }

  /** `percentage >= (passingMarks / maxMarks) * 100` for the rounded
      percentage. In floating point a zero subject maximum makes the
      threshold +Infinity or NaN (never reached) unless the passing mark is
      negative (-Infinity, always reached). */
  predicate ReachesPassMark(score: Score, subject: Subject) {
    if subject.maxMarks == 0.0 then subject.passingMarks < 0.0
    else (CalculatePercentage(score.marksObtained, score.maxMarks)
          >= subject.passingMarks / subject.maxMarks * 100.0)
  }

  /** One score passes when its subject is known and its mark is reached. */
  predicate PassesScore(score: Score, subjects: seq<Subject>) {
    match LookupSubject(subjects, score.subjectId)
    case None => false
    case Some(subject) => ReachesPassMark(score, subject)
  }

  /** `determinePassStatus`: `scores.every(...)`. */
  function DeterminePassStatus(scores: seq<Score>, subjects: seq<Subject>): (pass: bool)
    ensures pass <==> forall i :: 0 <= i < |scores| ==> PassesScore(scores[i], subjects)
  {
    if scores == [] then true
    else
      var pre := scores[..|scores| - 1];
      assert forall i :: 0 <= i < |pre| ==> pre[i] == scores[i];
      DeterminePassStatus(pre, subjects) && PassesScore(scores[|scores| - 1], subjects)
  }

  /** No scores pass vacuously; a score whose subject is unknown fails all. */
  lemma PassStatusCases(scores: seq<Score>, subjects: seq<Subject>, i: int)
    requires 0 <= i < |scores|
    requires forall j :: 0 <= j < |subjects| ==> subjects[j].id != scores[i].subjectId
    ensures DeterminePassStatus([], subjects)
    ensures !DeterminePassStatus(scores, subjects)
  {
    assert !PassesScore(scores[i], subjects);
  }

  /** A score of exactly the passing marks out of 30 when 10 are needed:
      33.33 (rounded) is below 33.333..., so the subject is failed. */
  lemma PassingMarkCanFail()
    ensures var subject := Subject("s", "Science", "SCI", 30.0, 10.0, "", "");
      var score := Score("x", "st", "ex", "s", 10.0, 30.0, "", 0.0, None, "", "", "");
      score.marksObtained == subject.passingMarks && !DeterminePassStatus([score], [subject])
  {
    var subject := Subject("s", "Science", "SCI", 30.0, 10.0, "", "");
    var score := Score("x", "st", "ex", "s", 10.0, 30.0, "", 0.0, None, "", "", "");
    assert 10.0 / 30.0 * 100.0 * 100.0 + 0.5 == 3333.0 + 5.0 / 6.0;
    assert (10.0 / 30.0 * 100.0 * 100.0 + 0.5).Floor == 3333;
    assert CalculatePercentage(10.0, 30.0) == 33.33;
    assert !PassesScore(score, [subject]);
  }

  /** The pass check with the threshold compared against the unrounded
      percentage, so that reaching the passing marks is always enough. */
  predicate ReachesPassMarkExact(score: Score, subject: Subject) {
    var percentage := if score.maxMarks == 0.0 then 0.0 else score.marksObtained / score.maxMarks * 100.0;
    if subject.maxMarks == 0.0 then subject.passingMarks < 0.0
    else percentage >= subject.passingMarks / subject.maxMarks * 100.0
  }

  predicate PassesScoreExact(score: Score, subjects: seq<Subject>) {
    match LookupSubject(subjects, score.subjectId)
    case None => false
    case Some(subject) => ReachesPassMarkExact(score, subject)
  }

  function DeterminePassStatusExact(scores: seq<Score>, subjects: seq<Subject>): (pass: bool)
    ensures pass <==> forall i :: 0 <= i < |scores| ==> PassesScoreExact(scores[i], subjects)
  {
    if scores == [] then true
    else
      var pre := scores[..|scores| - 1];
      assert forall i :: 0 <= i < |pre| ==> pre[i] == scores[i];
      DeterminePassStatusExact(pre, subjects) && PassesScoreExact(scores[|scores| - 1], subjects)
  }

  /** With the exact comparison, a score marked out of its subject's maximum
      passes exactly when it reaches the passing marks. */
  lemma ExactPassIsInclusive(score: Score, subject: Subject)
    requires score.maxMarks == subject.maxMarks > 0.0
    ensures ReachesPassMarkExact(score, subject) <==> score.marksObtained >= subject.passingMarks
  {
    var m, p, mx := score.marksObtained, subject.passingMarks, subject.maxMarks;
    ScaleKeepsOrder(m / mx, p / mx, 100.0);
    ScaleKeepsOrder(m / mx, p / mx, mx);
    assert m / mx * mx == m && p / mx * mx == p;
  }

  lemma ScaleKeepsOrder(a: real, b: real, c: real)
    requires c > 0.0
    ensures a >= b <==> a * c >= b * c
  {
  }

  // ---------------------------------------------------------------------------
  // Grade distribution

  /** The grades named by the scale, in scale order. */
  function ScaleGrades(scale: GradeScale): (gs: seq<string>)
    ensures |gs| == |scale.grades|
    ensures forall j :: 0 <= j < |scale.grades| ==> gs[j] == scale.grades[j].grade
  {
    seq(|scale.grades|, j requires 0 <= j < |scale.grades| => scale.grades[j].grade)
  }

  /** The grade each score receives, in order. */
  function GradesOf(scores: seq<Score>, scale: GradeScale): (gs: seq<string>)
    ensures |gs| == |scores|
    ensures forall i :: 0 <= i < |scores| ==> gs[i] == GradeOfScore(scores[i], scale).grade
  {
    seq(|scores|, i requires 0 <= i < |scores| => GradeOfScore(scores[i], scale).grade)
  }

  /** `getGradeDistribution`: a counter for every grade of the scale, set to
      0 first, then one increment per score for the grade it receives. */
  method GetGradeDistribution(scores: seq<Score>, scale: GradeScale) returns (dist: map<string, nat>)
    ensures forall g :: g in dist <==> g in ScaleGrades(scale) || g in GradesOf(scores, scale)
    ensures forall g :: g in dist ==> dist[g] == Occurrences(GradesOf(scores, scale), g)
  {
    var zeros := ZeroDistribution(scale);
    var grades := GradesOf(scores, scale);
    dist := CountGrades(zeros, grades);
    CountedKeys(zeros, grades);
    CountedOccurrences(zeros, grades);
  }

  /** The first loop of `getGradeDistribution`: every grade of the scale
      mapped to 0. */
  method ZeroDistribution(scale: GradeScale) returns (dist: map<string, nat>)
    ensures forall g :: g in dist <==> g in ScaleGrades(scale)
    ensures forall g :: g in dist ==> dist[g] == 0
  {
    var names := ScaleGrades(scale);
    dist := map[];
    var j := 0;
    while j < |scale.grades|
      invariant 0 <= j <= |scale.grades|
      invariant forall g :: g in dist <==> g in names[..j]
      invariant forall g :: g in dist ==> dist[g] == 0
    {
      assert names[..j + 1] == names[..j] + [scale.grades[j].grade];
      dist := dist[scale.grades[j].grade := 0];
      j := j + 1;
    }
    assert names[..|scale.grades|] == names;
  }

  /** The second loop of `getGradeDistribution`: one increment for each
      score's grade, in order. */
  method CountGrades(start: map<string, nat>, grades: seq<string>) returns (dist: map<string, nat>)
    ensures dist == Counted(start, grades)
  {
    dist := start;
    for i := 0 to |grades|
      invariant dist == Counted(start, grades[..i])
    {
      var g := grades[i];
      assert grades[..i + 1][..i] == grades[..i];
      dist := dist[g := (if g in dist then dist[g] else 0) + 1];
    }
    assert grades[..|grades|] == grades;
  }

  /** The counts of a grade distribution add up to the number of scores, and
      N/A is a key exactly when some score falls in no band (provided no band
      is itself called N/A). */
  lemma GradeDistributionTotal(scores: seq<Score>, scale: GradeScale, dist: map<string, nat>, keys: seq<string>)
    requires forall g :: g in dist <==> g in ScaleGrades(scale) || g in GradesOf(scores, scale)
    requires forall g :: g in dist ==> dist[g] == Occurrences(GradesOf(scores, scale), g)
    requires Distinct(keys)
    requires forall i :: 0 <= i < |keys| ==> keys[i] in dist
    requires forall g :: g in dist ==> g in keys
    ensures SumAt(dist, keys) == |scores|
  {
    var gs := GradesOf(scores, scale);
    forall i | 0 <= i < |gs| ensures gs[i] in keys {
      assert gs[i] in dist;
    }
    TallyTotal(dist, gs, keys);
  }

  /** A score whose percentage lies in no band of the scale. */
  predicate OutsideScale(s: Score, scale: GradeScale) {
    NoBand(scale.grades, CalculatePercentage(s.marksObtained, s.maxMarks))
  }

  lemma NotAvailableKey(scores: seq<Score>, scale: GradeScale, dist: map<string, nat>)
    requires forall g :: g in dist <==> g in ScaleGrades(scale) || g in GradesOf(scores, scale)
    requires forall j :: 0 <= j < |scale.grades| ==> scale.grades[j].grade != "N/A"
    ensures "N/A" in dist <==> exists i :: 0 <= i < |scores| && OutsideScale(scores[i], scale)
  {
    var gs := GradesOf(scores, scale);
    forall i | 0 <= i < |scores| && !OutsideScale(scores[i], scale) ensures gs[i] != "N/A" {
      var p := CalculatePercentage(scores[i].marksObtained, scores[i].maxMarks);
      var k := FirstBand(scale.grades, p).value;
      assert GradeOfScore(scores[i], scale) == InfoOf(scale.grades[k]);
    }
    if "N/A" in dist {
      assert "N/A" !in ScaleGrades(scale);
    }
    if exists i :: 0 <= i < |scores| && OutsideScale(scores[i], scale) {
      var i :| 0 <= i < |scores| && OutsideScale(scores[i], scale);
      assert gs[i] == "N/A";
    }
  }

  // ---------------------------------------------------------------------------
  // Ranking

  datatype StudentScore = StudentScore(studentId: string, totalPercentage: real)

  datatype RankedStudent = RankedStudent(studentId: string, rank: nat, totalPercentage: real)

  function PercentageOf(s: StudentScore): real { s.totalPercentage }

  /** Competition rank: one more than the number of students strictly above. */
  function CompetitionRank(students: seq<StudentScore>, p: real): nat {
    1 + CountAbove(students, PercentageOf, p)
  }

  /** `rankStudents`: a stable descending sort of a copy of the input, then a
      pass carrying `currentRank`, which moves to `index + 1` whenever the
      percentage drops. Equal percentages share a rank and the next distinct
      percentage skips the shared places (90, 90, 80, 70 rank 1, 1, 3, 4). */
  method RankStudents(studentScores: seq<StudentScore>) returns (ranked: seq<RankedStudent>)
    ensures |ranked| == |studentScores|
    ensures var sorted := SortDesc(studentScores, PercentageOf);
      forall i :: 0 <= i < |ranked| ==>
        ranked[i].studentId == sorted[i].studentId && ranked[i].totalPercentage == sorted[i].totalPercentage
    ensures forall i, j :: 0 <= i < j < |ranked| ==> ranked[i].totalPercentage >= ranked[j].totalPercentage
    ensures |ranked| > 0 ==> ranked[0].rank == 1
    ensures forall i :: 0 < i < |ranked| ==>
      ranked[i].rank == if ranked[i].totalPercentage < ranked[i - 1].totalPercentage then i + 1 else ranked[i - 1].rank
    ensures forall i :: 0 <= i < |ranked| ==>
      ranked[i].rank == CompetitionRank(studentScores, ranked[i].totalPercentage) && 1 <= ranked[i].rank <= i + 1
  {
    var sorted := SortDesc(studentScores, PercentageOf);
    ranked := AssignRanks(sorted);
    forall i | 0 <= i < |ranked|
      ensures ranked[i].rank == CompetitionRank(studentScores, ranked[i].totalPercentage)
    {
      CountAbovePermutation(sorted, studentScores, PercentageOf, ranked[i].totalPercentage);
    }
  }

  /** The `sorted.map(...)` pass of `rankStudents` over an already sorted list. */
  method AssignRanks(sorted: seq<StudentScore>) returns (ranked: seq<RankedStudent>)
    requires SortedDesc(sorted, PercentageOf)
    ensures |ranked| == |sorted|
    ensures forall i :: 0 <= i < |ranked| ==>
      ranked[i].studentId == sorted[i].studentId && ranked[i].totalPercentage == sorted[i].totalPercentage
    ensures |ranked| > 0 ==> ranked[0].rank == 1
    ensures forall i :: 0 < i < |ranked| ==>
      ranked[i].rank == if ranked[i].totalPercentage < ranked[i - 1].totalPercentage then i + 1 else ranked[i - 1].rank
    ensures forall i :: 0 <= i < |ranked| ==>
      ranked[i].rank == CompetitionRank(sorted, sorted[i].totalPercentage) && ranked[i].rank <= i + 1
  {
    ranked := [];
    var currentRank := 1;
    var i := 0;
    while i < |sorted|
      invariant 0 <= i <= |sorted| && |ranked| == i
      invariant forall j :: 0 <= j < i ==>
        ranked[j] == RankedStudent(sorted[j].studentId, CompetitionRank(sorted, sorted[j].totalPercentage), sorted[j].totalPercentage)
      invariant i == 0 ==> currentRank == 1
      invariant i > 0 ==> currentRank == CompetitionRank(sorted, sorted[i - 1].totalPercentage)
    {
      RankStep(sorted, i);
      if i > 0 && sorted[i].totalPercentage < sorted[i - 1].totalPercentage {
        currentRank := i + 1;
      }
      ranked := ranked + [RankedStudent(sorted[i].studentId, currentRank, sorted[i].totalPercentage)];
      i := i + 1;
    }
    forall i | 0 <= i < |ranked|
      ensures ranked[i].rank <= i + 1
      ensures i > 0 ==>
        ranked[i].rank == if ranked[i].totalPercentage < ranked[i - 1].totalPercentage then i + 1 else ranked[i - 1].rank
    {
      RankStep(sorted, i);
    }
    if |ranked| > 0 {
      RankStep(sorted, 0);
    }
  }

  /** In a descending list the competition rank of entry `i` is `i + 1`
      where the percentage drops (or at the start), and the rank of the entry
      before it otherwise; it is never above `i + 1`. */
  lemma RankStep(sorted: seq<StudentScore>, i: nat)
    requires SortedDesc(sorted, PercentageOf) && i < |sorted|
    ensures CompetitionRank(sorted, sorted[i].totalPercentage) <= i + 1
    ensures i == 0 || sorted[i].totalPercentage < sorted[i - 1].totalPercentage ==>
      CompetitionRank(sorted, sorted[i].totalPercentage) == i + 1
    ensures i > 0 && sorted[i].totalPercentage >= sorted[i - 1].totalPercentage ==>
      CompetitionRank(sorted, sorted[i].totalPercentage) == CompetitionRank(sorted, sorted[i - 1].totalPercentage)
  {
    CountAboveSorted(sorted, PercentageOf, i);
    if i > 0 && sorted[i].totalPercentage >= sorted[i - 1].totalPercentage {
      assert PercentageOf(sorted[i - 1]) >= PercentageOf(sorted[i]);
    }
  }

  // ---------------------------------------------------------------------------
  // Class statistics

  /** The pass mark `calculateClassStatistics` uses: 40 percent. */
  const ClassPassPercentage := 40.0

  predicate ReachesClassPass(p: real) { p >= ClassPassPercentage }

  function Identity(x: real): real { x }

  function PercentagesOf(scores: seq<Score>): (ps: seq<real>)
    ensures |ps| == |scores|
    ensures forall i :: 0 <= i < |scores| ==> ps[i] == CalculatePercentage(scores[i].marksObtained, scores[i].maxMarks)
  {
    seq(|scores|, i requires 0 <= i < |scores| => CalculatePercentage(scores[i].marksObtained, scores[i].maxMarks))
  }

  datatype ClassStatistics = ClassStatistics(
    average: real,
    highest: real,
    lowest: real,
    passRate: real,
    gradeDistribution: map<string, nat>)

  /** `calculateClassStatistics`: all zeros for no scores; otherwise the
      rounded mean, the unrounded maximum and minimum of the per-score
      percentages, the rounded share of percentages of at least 40, and the
      grade distribution. */
  method CalculateClassStatistics(scores: seq<Score>, scale: GradeScale) returns (stats: ClassStatistics)
    ensures scores == [] ==> stats == ClassStatistics(0.0, 0.0, 0.0, 0.0, map[])
    ensures scores != [] ==>
      var ps := PercentagesOf(scores);
      && stats.average == Round2(SumOf(ps, Identity) / |ps| as real)
      && stats.highest == MaxOf(ps, Identity)
      && stats.lowest == MinOf(ps, Identity)
      && stats.passRate == Round2(Count(ps, ReachesClassPass) as real / |ps| as real * 100.0)
    ensures stats.lowest <= stats.average <= stats.highest
    ensures 0.0 <= stats.passRate <= 100.0
    ensures scores != [] ==>
      (forall g :: g in stats.gradeDistribution <==> g in ScaleGrades(scale) || g in GradesOf(scores, scale))
      && forall g :: g in stats.gradeDistribution ==>
        stats.gradeDistribution[g] == Occurrences(GradesOf(scores, scale), g)
  {
    if scores == [] {
      return ClassStatistics(0.0, 0.0, 0.0, 0.0, map[]);
    }
    var percentages := PercentagesOf(scores);
    var mean := SumOf(percentages, Identity) / |percentages| as real;
    var highest := MaxOf(percentages, Identity);
    var lowest := MinOf(percentages, Identity);
    var passedCount := Count(percentages, ReachesClassPass);
    var passRate := passedCount as real / |percentages| as real * 100.0;
    var gradeDistribution := GetGradeDistribution(scores, scale);
    ClassStatisticsBounds(scores);
    stats := ClassStatistics(Round2(mean), highest, lowest, Round2(passRate), gradeDistribution);
  }

  /** The rounded mean of the percentages lies between their minimum and
      maximum (each percentage is in whole cents), and the pass rate lies
      in [0, 100]. */
  lemma ClassStatisticsBounds(scores: seq<Score>)
    requires scores != []
    ensures var ps := PercentagesOf(scores);
      MinOf(ps, Identity) <= Round2(SumOf(ps, Identity) / |ps| as real) <= MaxOf(ps, Identity)
    ensures var ps := PercentagesOf(scores);
      0.0 <= Round2(Count(ps, ReachesClassPass) as real / |ps| as real * 100.0) <= 100.0
  {
    var ps := PercentagesOf(scores);
    PercentagesAreCents(scores);
    CentsMeanBetween(ps);
    PassShareBounds(ps);
  }

  lemma PercentagesAreCents(scores: seq<Score>)
    ensures forall i :: 0 <= i < |scores| ==> IsCents(PercentagesOf(scores)[i])
  {
    forall i | 0 <= i < |scores| ensures IsCents(PercentagesOf(scores)[i]) {
      assert PercentagesOf(scores)[i] == CalculatePercentage(scores[i].marksObtained, scores[i].maxMarks);
    }
  }

  lemma CentsMeanBetween(ps: seq<real>)
    requires ps != [] && forall i :: 0 <= i < |ps| ==> IsCents(ps[i])
    ensures MinOf(ps, Identity) <= Round2(SumOf(ps, Identity) / |ps| as real) <= MaxOf(ps, Identity)
  {
    forall i | 0 <= i < |ps| ensures IsCents(Identity(ps[i])) {
    }
    RoundedMeanBetween(ps, Identity);
  }

  lemma PassShareBounds(ps: seq<real>)
    requires ps != []
    ensures 0.0 <= Round2(Count(ps, ReachesClassPass) as real / |ps| as real * 100.0) <= 100.0
  {
    Round2Percent(Count(ps, ReachesClassPass) as real, |ps| as real);
  }

  // ---------------------------------------------------------------------------
  // Mark validation

  datatype ScoreError =
    | NegativeMarks
    | ExceedsMaximum(maxMarks: real)
    | NotHalfStep

  /** The text of each validation error. The maximum is printed with
      JavaScript's number formatting, so its rendering is a parameter. */
  function ErrorMessage(e: ScoreError, maxMarksText: string): string {
    match e
    case NegativeMarks => "Marks cannot be negative"
    case ExceedsMaximum(_) => "Marks cannot exceed maximum marks (" + maxMarksText + ")"
    case NotHalfStep => "Marks should be in increments of 0.5"
  }

  datatype ScoreValidation = ScoreValidation(isValid: bool, error: Option<ScoreError>)

  /** A whole number of half marks. */
  predicate IsHalfStep(m: real) {
    (m * 2.0).Floor as real == m * 2.0
  }

  predicate IsWhole(m: real) {
    m.Floor as real == m
  }

  /** `validateScore`: negative marks, then marks above the maximum, then
      marks that are neither whole nor a multiple of 0.5 (`m % 0.5 !== 0`,
      taken on non-negative marks) are refused, in that order. */
  function ValidateScore(marksObtained: real, maxMarks: real): (v: ScoreValidation)
    ensures v.isValid <==> v.error.None?
    ensures v.isValid <==> 0.0 <= marksObtained <= maxMarks && IsHalfStep(marksObtained)
    ensures v.error == Some(NegativeMarks) <==> marksObtained < 0.0
    ensures v.error == Some(ExceedsMaximum(maxMarks)) <==> 0.0 <= marksObtained && maxMarks < marksObtained
    ensures v.error == Some(NotHalfStep) <==>
      0.0 <= marksObtained <= maxMarks && !IsHalfStep(marksObtained)
  {
    var m := marksObtained;
    if m < 0.0 then ScoreValidation(false, Some(NegativeMarks))
    else if m > maxMarks then ScoreValidation(false, Some(ExceedsMaximum(maxMarks)))
    else if !IsWhole(m) && m - 0.5 * (m / 0.5).Floor as real != 0.0 then
      assert !IsHalfStep(m) by { RemainderOfHalf(m); }
      ScoreValidation(false, Some(NotHalfStep))
    else
      assert IsHalfStep(m) by {
        RemainderOfHalf(m);
        if IsWhole(m) {
          WholeIsHalfStep(m);
        }
      }
      ScoreValidation(true, None)
  }

  /** `m % 0.5 == 0` on non-negative `m` says that `m` is a half step. */
  lemma RemainderOfHalf(m: real)
    requires m >= 0.0
    ensures m - 0.5 * (m / 0.5).Floor as real == 0.0 <==> IsHalfStep(m)
  {
    assert m / 0.5 == m * 2.0;
  }

  lemma WholeIsHalfStep(m: real)
    requires IsWhole(m)
    ensures IsHalfStep(m)
  {
    var k := m.Floor;
    assert m * 2.0 == (2 * k) as real;
  }
}
