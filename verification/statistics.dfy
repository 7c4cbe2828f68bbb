/** The summary statistics of the roster report: per-subject means, the class mean and the
    subject ranking table. */
module Statistics {
  import opened Wrappers
  import opened Grading
  import opened Directory
  import opened Records
  import opened StableSort

  /** The undocumented factor every mean of the roster report is divided by. */
  const MeanNormalization: real := 12.0

  /** A student's score in `subject`, zero when missing. */
  function Column(subject: string): Student -> real {
    st => ScoreOf(st, subject)
  }

  /** A student's score in `subject` when it is strictly positive, zero otherwise. */
  function PositivePart(subject: string): Student -> real {
    st => if ScoreOf(st, subject) > 0.0 then ScoreOf(st, subject) else 0.0
  }

  /** The student has a strictly positive score in `subject`. */
  function HasPositive(subject: string): Student -> bool {
    st => ScoreOf(st, subject) > 0.0
  }

  /** calculateSubjectMean: the sum of every student's score in `subject` (zero for a
      missing one) divided by the number of students and then by 12; 0 for no students. */
  function SubjectMean(students: seq<Student>, subject: string): (r: real)
    ensures students == [] ==> r == 0.0
    ensures r * |students| as real * MeanNormalization == SumOf(students, Column(subject))
  {
    if |students| > 0 then SumOf(students, Column(subject)) / |students| as real / MeanNormalization
    else 0.0
  }

  /** calculateClassMean: the sum of every student's total marks divided by the number of
      students and then by 12; 0 for no students. */
  function ClassMean(students: seq<Student>): (r: real)
    ensures students == [] ==> r == 0.0
    ensures r * |students| as real * MeanNormalization == SumOf(students, TotalMarks)
  {
    if |students| > 0 then SumOf(students, TotalMarks) / |students| as real / MeanNormalization
    else 0.0
  }

  /** The mean of calculateSubjectRankings: the average of the strictly positive scores in
      `subject` only, divided by 12; 0 when no student has a positive score. */
  function RankingMean(students: seq<Student>, subject: string): (r: real)
    ensures CountWhere(students, HasPositive(subject)) == 0 ==> r == 0.0
    ensures r * CountWhere(students, HasPositive(subject)) as real * MeanNormalization
            == SumOf(students, PositivePart(subject))
  {
    var n := CountWhere(students, HasPositive(subject));
    if n > 0 then SumOf(students, PositivePart(subject)) / n as real / MeanNormalization
    else NoPositiveNoSum(students, subject); 0.0
  }

  /** When nobody has a positive score in `subject`, the positive parts sum to zero. */
  lemma {:induction false} NoPositiveNoSum(students: seq<Student>, subject: string)
    requires CountWhere(students, HasPositive(subject)) == 0
    ensures SumOf(students, PositivePart(subject)) == 0.0
  {
    if students != [] {
      NoPositiveNoSum(students[1..], subject);
    }
  }

  /** One row of the subject ranking table before positions are assigned. */
  datatype SubjectStat = SubjectStat(subject: string, mean: real, grade: Grade, teacher: string)

  /** A row of the ranking table with its position (1 for the highest mean). */
  datatype RankedSubject = RankedSubject(stat: SubjectStat, position: nat)

  /** The statistics of one subject: its ranking mean, the per-subject letter of that mean
      and the subject's teacher. */
  function StatFor(students: seq<Student>, subject: string): (s: SubjectStat)
    ensures s.subject == subject
    ensures s.mean == RankingMean(students, subject)
    ensures Letter(s.grade) == SubjectGrade(Some(s.mean))
    ensures s.teacher == TeacherFor(subject)
  {
    var m := RankingMean(students, subject);
    SubjectStat(subject, m, Classify(SubjectScale, m), TeacherFor(subject))
  }

  /** The statistics of each subject, in the order the subjects are given. */
  function StatsFor(students: seq<Student>, subjects: seq<string>): (r: seq<SubjectStat>)
    ensures |r| == |subjects|
    ensures forall i :: 0 <= i < |subjects| ==> r[i] == StatFor(students, subjects[i])
  {
    seq(|subjects|, i requires 0 <= i < |subjects| => StatFor(students, subjects[i]))
  }

  /** Sort key of the ranking: ascending in the negated mean is descending in the mean, as
      the comparator `b.mean - a.mean` orders the rows. */
  function NegMean(s: SubjectStat): real {
    -s.mean
  }

  /** The ranking table without its positions. */
  function Stats(r: seq<RankedSubject>): (s: seq<SubjectStat>)
    ensures |s| == |r|
    ensures forall i :: 0 <= i < |r| ==> s[i] == r[i].stat
  {
    seq(|r|, i requires 0 <= i < |r| => r[i].stat)
  }

  /** Numbers the rows 1, 2, ... in order. */
  function Number(rows: seq<SubjectStat>): (r: seq<RankedSubject>)
    ensures |r| == |rows|
    ensures forall i :: 0 <= i < |r| ==> r[i] == RankedSubject(rows[i], i + 1)
    ensures Stats(r) == rows
  {
    seq(|rows|, i requires 0 <= i < |rows| => RankedSubject(rows[i], i + 1))
  }

  /** Every element of StatsFor is the statistics of one of the given subjects. */
  lemma StatsForMember(students: seq<Student>, subjects: seq<string>, s: SubjectStat)
    requires s in StatsFor(students, subjects)
    ensures s.subject in subjects
    ensures s == StatFor(students, s.subject)
  {
    var i :| 0 <= i < |subjects| && StatsFor(students, subjects)[i] == s;
  }

  /** A rearrangement of the subjects' statistics holds, at each position, the statistics
      of one of the subjects. */
  lemma RearrangedStats(students: seq<Student>, subjects: seq<string>, rows: seq<SubjectStat>)
    requires multiset(rows) == multiset(StatsFor(students, subjects))
    ensures forall i :: 0 <= i < |rows| ==> rows[i].subject in subjects
    ensures forall i :: 0 <= i < |rows| ==> rows[i].mean == RankingMean(students, rows[i].subject)
    ensures forall i :: 0 <= i < |rows| ==> Letter(rows[i].grade) == SubjectGrade(Some(rows[i].mean))
    ensures forall i :: 0 <= i < |rows| ==> rows[i].teacher == TeacherFor(rows[i].subject)
  {
    forall i | 0 <= i < |rows|
      ensures rows[i].subject in subjects && rows[i] == StatFor(students, rows[i].subject)
    {
      assert rows[i] in multiset(rows);
      StatsForMember(students, subjects, rows[i]);
    }
  }

  /** Ascending in the negated mean is non-increasing in the mean. */
  lemma DescendingMeans(rows: seq<SubjectStat>)
    requires SortedBy(rows, NegMean)
    ensures forall i, j :: 0 <= i < j < |rows| ==> rows[i].mean >= rows[j].mean
  {
    forall i, j | 0 <= i < j < |rows|
      ensures rows[i].mean >= rows[j].mean
    {
      assert NegMean(rows[i]) <= NegMean(rows[j]);
    }
  }

  /** calculateSubjectRankings: one row per subject, in order of non-increasing mean, with
      subjects of equal mean in their given order, numbered 1, 2, ... in that order. Each
      row carries its subject's ranking mean, the per-subject letter of that mean and the
      subject's teacher. */
  function SubjectRankings(students: seq<Student>, subjects: seq<string>): (r: seq<RankedSubject>)
    ensures |r| == |subjects|
    ensures forall i :: 0 <= i < |r| ==> r[i].position == i + 1
    ensures forall i, j :: 0 <= i < j < |r| ==> r[i].stat.mean >= r[j].stat.mean
    ensures multiset(Stats(r)) == multiset(StatsFor(students, subjects))
    ensures SameRuns(Stats(r), StatsFor(students, subjects), NegMean)
    ensures forall i :: 0 <= i < |r| ==> r[i].stat.subject in subjects
    ensures forall i :: 0 <= i < |r| ==> r[i].stat.mean == RankingMean(students, r[i].stat.subject)
    ensures forall i :: 0 <= i < |r| ==> Letter(r[i].stat.grade) == SubjectGrade(Some(r[i].stat.mean))
    ensures forall i :: 0 <= i < |r| ==> r[i].stat.teacher == TeacherFor(r[i].stat.subject)
  {
    var stats := StatsFor(students, subjects);
    var sorted := Sort(stats, NegMean);
    SortCorrect(stats, NegMean);
    RearrangedStats(students, subjects, sorted);
    DescendingMeans(sorted);
    Number(sorted)
  }

  /** Sorting the roster, by any key, changes none of the means. */
  lemma MeansIgnoreOrder(students: seq<Student>, key: Student -> real, subject: string)
    ensures SubjectMean(Sort(students, key), subject) == SubjectMean(students, subject)
    ensures RankingMean(Sort(students, key), subject) == RankingMean(students, subject)
    ensures ClassMean(Sort(students, key)) == ClassMean(students)
  {
    SumOfSort(students, key, Column(subject));
    SumOfSort(students, key, PositivePart(subject));
    SumOfSort(students, key, TotalMarks);
    CountWhereSort(students, key, HasPositive(subject));
  }

  /** A student without a score in `subject` still counts in the subject mean's
      denominator: adding one scales the mean by n / (n + 1). */
  lemma SubjectMeanCountsMissing(students: seq<Student>, st: Student, subject: string)
    requires ScoreOf(st, subject) == 0.0
    ensures SubjectMean(students + [st], subject) * (|students| + 1) as real
            == SubjectMean(students, subject) * |students| as real
  {
    SumOfAppend(students, st, Column(subject));
    var s := SumOf(students, Column(subject));
    var n := |students| as real;
    assert SubjectMean(students + [st], subject) == s / (n + 1.0) / 12.0;
    assert s / (n + 1.0) / 12.0 * (n + 1.0) == s / 12.0;
    if n > 0.0 {
      assert s / n / 12.0 * n == s / 12.0;
    }
  }

  /** A student whose total marks are zero still counts in the class mean's denominator. */
  lemma ClassMeanCountsEveryStudent(students: seq<Student>, st: Student)
    requires TotalMarks(st) == 0.0
    ensures ClassMean(students + [st]) * (|students| + 1) as real
            == ClassMean(students) * |students| as real
  {
    SumOfAppend(students, st, TotalMarks);
    var s := SumOf(students, TotalMarks);
    var n := |students| as real;
    assert ClassMean(students + [st]) == s / (n + 1.0) / 12.0;
    assert s / (n + 1.0) / 12.0 * (n + 1.0) == s / 12.0;
    if n > 0.0 {
      assert s / n / 12.0 * n == s / 12.0;
    }
  }

  /** A student with a zero, negative or missing score in `subject` does not change the
      ranking mean: it is left out of the denominator as well as the sum. */
  lemma RankingMeanIgnoresNonPositive(students: seq<Student>, st: Student, subject: string)
    requires ScoreOf(st, subject) <= 0.0
    ensures RankingMean(students + [st], subject) == RankingMean(students, subject)
  {
    SumOfAppend(students, st, PositivePart(subject));
    CountWhereAppend(students, st, HasPositive(subject));
  }

  /** The positive scores add up to at most `hi` for each of them. */
  lemma {:induction false} PositiveSumBound(students: seq<Student>, subject: string, hi: real)
    requires forall st :: st in students ==> ScoreOf(st, subject) <= hi
    ensures 0.0 <= SumOf(students, PositivePart(subject))
    ensures SumOf(students, PositivePart(subject)) <= hi * CountWhere(students, HasPositive(subject)) as real
    decreases |students|
  {
    if students != [] {
      var x := students[0];
      assert x in students;
      PositiveSumBound(students[1..], subject, hi);
      var v := ScoreOf(x, subject);
      var n := CountWhere(students[1..], HasPositive(subject)) as real;
      var rest := SumOf(students[1..], PositivePart(subject));
      assert SumOf(students, PositivePart(subject)) == (if v > 0.0 then v else 0.0) + rest;
      assert CountWhere(students, HasPositive(subject)) as real == (if v > 0.0 then 1.0 else 0.0) + n;
      assert v <= hi && rest <= hi * n;
      if v > 0.0 {
        assert hi * (1.0 + n) == hi + hi * n;
      }
    }
  }

  /** An average of values between lo and hi lies between lo and hi. */
  lemma AverageBounds(sum: real, n: real, lo: real, hi: real)
    requires n > 0.0 && lo * n <= sum <= hi * n
    ensures lo <= sum / n <= hi
  {
    assert sum / n * n == sum;
  }

  /** The ranking mean of scores at most 100 is at most 100 / 12. */
  lemma RankingMeanBound(students: seq<Student>, subject: string)
    requires forall st :: st in students ==> ScoreOf(st, subject) <= 100.0
    ensures 0.0 <= RankingMean(students, subject) <= 100.0 / 12.0
  {
    PositiveSumBound(students, subject, 100.0);
    var c := CountWhere(students, HasPositive(subject)) as real;
    if c > 0.0 {
      AverageBounds(SumOf(students, PositivePart(subject)), c, 0.0, 100.0);
    }
  }

  /** With every score between 0 and 100 both subject means lie between 0 and 100 / 12. */
  lemma MeanBounds(students: seq<Student>, subject: string)
    requires forall st :: st in students ==> 0.0 <= ScoreOf(st, subject) <= 100.0
    ensures 0.0 <= SubjectMean(students, subject) <= 100.0 / 12.0
    ensures 0.0 <= RankingMean(students, subject) <= 100.0 / 12.0
  {
    SumOfBounds(students, Column(subject), 0.0, 100.0);
    var n := |students| as real;
    if n > 0.0 {
      AverageBounds(SumOf(students, Column(subject)), n, 0.0, 100.0);
    }
    RankingMeanBound(students, subject);
  }

  /** Because of the division by 12, no subject scored out of 100 can reach the per-subject
      D- threshold of 25: every row of the ranking table is graded E. */
  lemma RankingGradesAreE(students: seq<Student>, subjects: seq<string>)
    requires forall st, s :: st in students && s in subjects ==> ScoreOf(st, s) <= 100.0
    ensures forall row :: row in SubjectRankings(students, subjects) ==> row.stat.grade == E
  {
    var r := SubjectRankings(students, subjects);
    forall row | row in r
      ensures row.stat.grade == E
    {
      var i :| 0 <= i < |r| && r[i] == row;
      RankingMeanBound(students, row.stat.subject);
    }
  }

  /** A student whose only entry is `score` in subject "X". */
  function PupilWithX(score: real): Student {
    Student("", "", [SubjectScore("X", Some(score), "", "", "")], None, None, None, "")
  }

  /** Scores 84 and 96 average 90, reported as 90 / 12 = 7.5. */
  lemma SubjectMeanExample()
    ensures SubjectMean([PupilWithX(84.0), PupilWithX(96.0)], "X") == 7.5
  {
    var s := [PupilWithX(84.0), PupilWithX(96.0)];
    assert ScoreOf(s[0], "X") == 84.0;
    assert ScoreOf(s[1], "X") == 96.0;
    assert SumOf(s, Column("X")) == 180.0;
  }

  /** Scores 0 and 80 rank the subject by 80 / 12: the zero is left out of the average. */
  lemma RankingMeanExample()
    ensures RankingMean([PupilWithX(0.0), PupilWithX(80.0)], "X") == 80.0 / 12.0
  {
    var s := [PupilWithX(0.0), PupilWithX(80.0)];
    assert ScoreOf(s[0], "X") == 0.0;
    assert ScoreOf(s[1], "X") == 80.0;
    assert SumOf(s, PositivePart("X")) == 80.0;
    assert CountWhere(s, HasPositive("X")) == 1;
  }
}
