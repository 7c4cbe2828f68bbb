/** The roster report of exportResultsToExcel, as the structured payload handed to the
    spreadsheet writer: column headers, one row per student in class-rank order, the subject
    means, the subject ranking table and the class mean. */
module Roster {
  import opened Wrappers
  import opened Grading
  import opened Directory
  import opened Records
  import opened StableSort
  import opened Subjects
  import opened Statistics

  /** The students in roster order: ascending effective class rank (a missing or zero rank
      sorting as Number.MAX_SAFE_INTEGER), students of equal rank in their input order. */
  function SortRoster(students: seq<Student>): (r: seq<Student>)
    ensures |r| == |students|
    ensures multiset(r) == multiset(students)
    ensures forall i, j :: 0 <= i < j < |r| ==> EffectiveRank(r[i]) <= EffectiveRank(r[j])
    ensures SameRuns(r, students, RankKey)
  {
    SortCorrect(students, RankKey);
    var r := Sort(students, RankKey);
    assert forall i, j :: 0 <= i < j < |r| ==> RankKey(r[i]) <= RankKey(r[j]);
    r
  }

  /** The roster order is the only ascending, stable arrangement of the students, so the
      engine's stable Array.prototype.sort produces exactly it. */
  lemma RosterOrderIsUnique(students: seq<Student>, other: seq<Student>)
    requires forall i, j :: 0 <= i < j < |other| ==> EffectiveRank(other[i]) <= EffectiveRank(other[j])
    requires SameRuns(other, students, RankKey)
    ensures other == SortRoster(students)
  {
    var r := SortRoster(students);
    assert SortedBy(r, RankKey);
    assert SortedBy(other, RankKey);
    SortedRunsUnique(other, r, RankKey);
  }

  /** The student has no truthy class rank. */
  predicate Unranked(st: Student) {
    st.classRank.None? || st.classRank.value == 0
  }

  /** Every student whose rank is truthy and below Number.MAX_SAFE_INTEGER comes before
      every unranked student. */
  lemma UnrankedLast(students: seq<Student>)
    ensures var r := SortRoster(students);
            forall i, j ::
              (0 <= i < |r| && 0 <= j < |r| && Unranked(r[i]) && !Unranked(r[j])
               && r[j].classRank.value < MaxSafeInteger) ==> j < i
  {
  }

  /** A roster cell for one subject: "-" when the student has no entry for the subject or
      the entry has no score, otherwise the rounded score and its per-subject letter. */
  function CellFor(st: Student, subject: string): (c: Cell)
    ensures c.Blank? <==> EntryFor(st, subject).None? || EntryFor(st, subject).value.score.None?
    ensures c.Marked? ==> Letter(c.grade) == SubjectGrade(Some(ScoreOf(st, subject)))
    ensures c.Marked? ==> c.rounded as real - 0.5 <= ScoreOf(st, subject) < c.rounded as real + 0.5
  {
    match EntryFor(st, subject)
    case None => Blank
    case Some(e) => FormatScoreWithGrade(e.score)
  }

  /** One student's row. */
  datatype Row = Row(
    admissionNumber: string,
    name: string,
    cells: seq<Cell>,
    totalMarks: int,
    totalGrade: Mark,
    classRank: Option<int>)

  /** The row of a student under the given subject columns: a cell per subject, the total
      marks rounded, the overall letter of the total marks out of 1100, and the class rank
      (left blank when falsy). */
  function RowFor(st: Student, subjects: seq<string>): (row: Row)
    ensures |row.cells| == |subjects|
    ensures forall j :: 0 <= j < |subjects| ==> row.cells[j] == CellFor(st, subjects[j])
    ensures row.totalMarks as real - 0.5 <= TotalMarks(st) < row.totalMarks as real + 0.5
    ensures row.totalGrade == TotalGrade(Some(TotalMarks(st)), DefaultMaxPossible)
    ensures row.totalGrade != Dash
    ensures row.classRank.Some? <==> !Unranked(st)
    ensures row.classRank.Some? ==> row.classRank == st.classRank
  {
    var total := TotalMarks(st);
    Row(st.admissionNumber, st.name,
        seq(|subjects|, j requires 0 <= j < |subjects| => CellFor(st, subjects[j])),
        Round(total),
        TotalGrade(Some(total), DefaultMaxPossible),
        ShownRank(st))
  }

  /** The rank a row sorts by: its shown rank, or Number.MAX_SAFE_INTEGER when blank. */
  function RowRank(row: Row): int {
    match row.classRank
    case Some(k) => k
    case None => MaxSafeInteger
  }

  /** The rows of the students, in the order given. */
  function Rows(students: seq<Student>, subjects: seq<string>): (rows: seq<Row>)
    ensures |rows| == |students|
    ensures forall i :: 0 <= i < |rows| ==> rows[i] == RowFor(students[i], subjects)
    ensures forall i :: 0 <= i < |rows| ==> RowRank(rows[i]) == EffectiveRank(students[i])
  {
    seq(|students|, i requires 0 <= i < |students| => RowFor(students[i], subjects))
  }

  /** The subject-mean row: the mean of each subject column. */
  function Means(students: seq<Student>, subjects: seq<string>): (means: seq<real>)
    ensures |means| == |subjects|
    ensures forall j :: 0 <= j < |subjects| ==> means[j] == SubjectMean(students, subjects[j])
  {
    seq(|subjects|, j requires 0 <= j < |subjects| => SubjectMean(students, subjects[j]))
  }

  /** Computing the statistics over the sorted roster gives those of the roster as given. */
  lemma StatisticsIgnoreRosterOrder(students: seq<Student>, subjects: seq<string>)
    ensures Means(SortRoster(students), subjects) == Means(students, subjects)
    ensures SubjectRankings(SortRoster(students), subjects) == SubjectRankings(students, subjects)
    ensures ClassMean(SortRoster(students)) == ClassMean(students)
  {
    var sorted := SortRoster(students);
    forall subject | subject in subjects
      ensures SubjectMean(sorted, subject) == SubjectMean(students, subject)
      ensures RankingMean(sorted, subject) == RankingMean(students, subject)
    {
      MeansIgnoreOrder(students, RankKey, subject);
    }
    MeansIgnoreOrder(students, RankKey, "");
    assert StatsFor(sorted, subjects) == StatsFor(students, subjects);
  }

  /** The structured roster report. */
  datatype RosterReport = RosterReport(
    subjects: seq<string>,
    headers: seq<string>,
    rows: seq<Row>,
    means: seq<real>,
    rankings: seq<RankedSubject>,
    classMean: real,
    classGrade: Mark)

  /** exportResultsToExcel without the spreadsheet writing: the subject columns are the
      roster's distinct subjects, sorted, headed by their abbreviations; the rows follow the
      roster order; and every statistic, although computed over the sorted roster, equals
      the statistic of the roster as given. */
  function BuildRoster(students: seq<Student>): (rep: RosterReport)
    ensures rep.subjects == UniqueSubjects(students)
    ensures |rep.headers| == |rep.subjects|
    ensures forall j :: 0 <= j < |rep.subjects| ==> rep.headers[j] == Abbreviation(rep.subjects[j])
    ensures |rep.rows| == |students|
    ensures forall i :: 0 <= i < |rep.rows| ==> rep.rows[i] == RowFor(SortRoster(students)[i], rep.subjects)
    ensures forall i, j :: 0 <= i < j < |rep.rows| ==> RowRank(rep.rows[i]) <= RowRank(rep.rows[j])
    ensures |rep.means| == |rep.subjects|
    ensures forall j :: 0 <= j < |rep.subjects| ==> rep.means[j] == SubjectMean(students, rep.subjects[j])
    ensures rep.rankings == SubjectRankings(students, rep.subjects)
    ensures rep.classMean == ClassMean(students)
    ensures rep.classGrade == SubjectGrade(Some(ClassMean(students)))
  {
    var subjects := UniqueSubjects(students);
    var sorted := SortRoster(students);
    StatisticsIgnoreRosterOrder(students, subjects);
    RosterReport(
      subjects,
      seq(|subjects|, j requires 0 <= j < |subjects| => Abbreviation(subjects[j])),
      Rows(sorted, subjects),
      Means(sorted, subjects),
      SubjectRankings(sorted, subjects),
      ClassMean(sorted),
      SubjectGrade(Some(ClassMean(sorted))))
  }
}
