/** The data of the individual student report (exportIndividualResultToWord and
    exportIndividualResultAsHTML) before rendering: each subject line with its teacher,
    letter and remark filled in when the record lacks them, and the summary block. */
module Individual {
  import opened Wrappers
  import opened Grading
  import opened Directory
  import opened Records

  /** One subject line of the report. */
  datatype SubjectLine = SubjectLine(
    subjectName: string,
    rounded: int,
    grade: string,
    teacher: string,
    remarks: string)

  /** Fills in a subject line: the score shown is `Math.round(score || 0)`; the letter is the
      recorded one or else the per-subject letter of the score ("-" when it is missing); the
      teacher is the recorded one or else the directory's; the remark is the recorded one or
      else the remark of the letter. */
  function EnrichSubject(e: SubjectScore): (line: SubjectLine)
    ensures line.subjectName == e.subjectName
    ensures line.rounded as real - 0.5 <= e.score.GetOr(0.0) < line.rounded as real + 0.5
    ensures e.grade != "" ==> line.grade == e.grade
    ensures e.grade == "" ==> line.grade == MarkText(SubjectGrade(e.score))
    ensures e.teacher != "" ==> line.teacher == e.teacher
    ensures e.teacher == "" ==> line.teacher == TeacherFor(e.subjectName)
    ensures e.remarks != "" ==> line.remarks == e.remarks
    ensures e.remarks == "" ==> line.remarks == Remark(line.grade)
  {
    var grade := OrElse(e.grade, MarkText(SubjectGrade(e.score)));
    SubjectLine(
      e.subjectName,
      Round(e.score.GetOr(0.0)),
      grade,
      OrElse(e.teacher, TeacherFor(e.subjectName)),
      OrElse(e.remarks, Remark(grade)))
  }

  /** Without recorded overrides, a line gets the pending remark exactly when its score is
      missing. */
  lemma PendingRemarkOnlyWithoutScore(e: SubjectScore)
    requires e.grade == "" && e.remarks == ""
    ensures EnrichSubject(e).remarks == PendingRemark <==> e.score.None?
  {
    RemarkOfMark(SubjectGrade(e.score));
  }

  /** The summary block. `totalMarks` is the value the percentage and the letter are computed
      from; `shownTotal` is its rounding, as printed. A rank is None where "N/A" is printed. */
  datatype Summary = Summary(
    totalMarks: real,
    shownTotal: int,
    percentage: real,
    overallGrade: string,
    classRank: Option<int>,
    streamRank: Option<int>)

  /** `rank ? '#' + rank : 'N/A'`: a missing or zero rank is not shown. */
  function ShownOrNone(rank: Option<int>): (r: Option<int>)
    ensures r.Some? <==> rank.Some? && rank.value != 0
    ensures r.Some? ==> r == rank
  {
    match rank
    case Some(k) => if k != 0 then Some(k) else None
    case None => None
  }

  /** The summary of a student whose subjects are listed separately: total marks are the
      recorded total when truthy and otherwise the sum of the listed scores; the percentage
      is of the fixed maximum 1100; the total is printed rounded; the overall letter is the
      recorded one or else the overall letter of the total marks; the class and stream ranks
      are shown when truthy. */
  function Summarize(st: Student, subjects: seq<SubjectScore>): (s: Summary)
    ensures st.totalScore.Some? && st.totalScore.value != 0.0 ==> s.totalMarks == st.totalScore.value
    ensures st.totalScore.None? || st.totalScore.value == 0.0 ==> s.totalMarks == ScoreSum(subjects)
    ensures s.shownTotal as real - 0.5 <= s.totalMarks < s.shownTotal as real + 0.5
    ensures s.percentage * 11.0 == s.totalMarks
    ensures st.overallGrade != "" ==> s.overallGrade == st.overallGrade
    ensures st.overallGrade == "" ==>
              ParseGrade(s.overallGrade) == Some(TotalGrade(Some(s.totalMarks), DefaultMaxPossible).grade)
    ensures s.classRank.Some? <==> st.classRank.Some? && st.classRank.value != 0
    ensures s.classRank.Some? ==> s.classRank == st.classRank
    ensures s.streamRank.Some? <==> st.streamRank.Some? && st.streamRank.value != 0
    ensures s.streamRank.Some? ==> s.streamRank == st.streamRank
  {
    var total := TotalMarks(st.(subjectScores := subjects));
    var letter := TotalGrade(Some(total), DefaultMaxPossible);
    GradeTextRoundTrip(letter.grade);
    Summary(
      total,
      Round(total),
      total / DefaultMaxPossible * 100.0,
      OrElse(st.overallGrade, MarkText(letter)),
      ShownOrNone(st.classRank),
      ShownOrNone(st.streamRank))
  }

  /** A total of 900 out of 1100 is about 81.8 per cent, an A. */
  lemma SummaryExample(st: Student)
    requires st.totalScore == Some(900.0) && st.overallGrade == ""
    ensures Summarize(st, []).percentage == 900.0 / 11.0
    ensures Summarize(st, []).overallGrade == "A"
  {
    TotalGradeExample();
  }
}
