/** The student records the report engine reads, and the per-record values it derives:
    a student's score in one subject, total marks and effective class rank. */
module Records {
  import opened Wrappers

  /** One entry of a student's `subject_scores`. Text fields hold "" when absent or empty;
      `score` is None when absent, null, empty or not a number. `grade`, `teacher` and
      `remarks` are optional overrides sent by the backend. */
  datatype SubjectScore = SubjectScore(
    subjectName: string,
    score: Option<real>,
    grade: string,
    teacher: string,
    remarks: string)

  /** A student as the backend sends it. An absent `subject_scores` list is the empty
      sequence; `totalScore`, `classRank` and `streamRank` are None when absent or null. */
  datatype Student = Student(
    admissionNumber: string,
    name: string,
    subjectScores: seq<SubjectScore>,
    totalScore: Option<real>,
    classRank: Option<int>,
    streamRank: Option<int>,
    overallGrade: string)

  /** JavaScript's `text || fallback` on a string field. */
  function OrElse(text: string, fallback: string): string {
    if text == "" then fallback else text
  }

  /** Array.prototype.find on the subject name: the index of the first entry named
      `subject`, or |scores| when there is none. */
  function FindEntry(scores: seq<SubjectScore>, subject: string): (i: nat)
    ensures i <= |scores|
    ensures forall j :: 0 <= j < i ==> scores[j].subjectName != subject
    ensures i < |scores| ==> scores[i].subjectName == subject
  {
    if scores == [] then 0
    else if scores[0].subjectName == subject then 0
    else 1 + FindEntry(scores[1..], subject)
  }

  /** The entry a student has for `subject`, if any. */
  function EntryFor(st: Student, subject: string): (r: Option<SubjectScore>)
    ensures r.None? <==> forall e :: e in st.subjectScores ==> e.subjectName != subject
    ensures r.Some? ==> r.value in st.subjectScores && r.value.subjectName == subject
    ensures r.Some? ==> r.value == st.subjectScores[FindEntry(st.subjectScores, subject)]
  {
    var i := FindEntry(st.subjectScores, subject);
    if i < |st.subjectScores| then Some(st.subjectScores[i]) else None
  }

  /** `parseFloat(entry.score) || 0` for the student's entry in `subject`, and 0 when the
      student has no such entry: a missing subject or a missing score counts as zero. */
  function ScoreOf(st: Student, subject: string): (r: real)
    ensures var i := FindEntry(st.subjectScores, subject);
            i < |st.subjectScores| && st.subjectScores[i].score.Some? ==>
              r == st.subjectScores[i].score.value
    ensures (forall e :: e in st.subjectScores ==> e.subjectName != subject) ==> r == 0.0
    ensures var i := FindEntry(st.subjectScores, subject);
            i < |st.subjectScores| && st.subjectScores[i].score.None? ==> r == 0.0
  {
    match EntryFor(st, subject)
    case None => 0.0
    case Some(e) => e.score.GetOr(0.0)
  }

  /** The sum of every entry's score, a missing score counting as zero. */
  function ScoreSum(scores: seq<SubjectScore>): real {
    if scores == [] then 0.0 else scores[0].score.GetOr(0.0) + ScoreSum(scores[1..])
  }

  /** With every present score between 0 and 100, the sum is between 0 and 100 per entry. */
  lemma {:induction false} ScoreSumBounds(scores: seq<SubjectScore>)
    requires forall e :: e in scores && e.score.Some? ==> 0.0 <= e.score.value <= 100.0
    ensures 0.0 <= ScoreSum(scores) <= 100.0 * |scores| as real
    decreases |scores|
  {
    if scores != [] {
      assert scores[0] in scores;
      ScoreSumBounds(scores[1..]);
    }
  }

  /** `total_score || sum of subject scores || 0`: the recorded total when it is truthy
      (present and non-zero), otherwise the sum of the subject scores. */
  function TotalMarks(st: Student): (t: real)
    ensures st.totalScore.Some? && st.totalScore.value != 0.0 ==> t == st.totalScore.value
    ensures st.totalScore.None? || st.totalScore.value == 0.0 ==> t == ScoreSum(st.subjectScores)
  {
    match st.totalScore
    case Some(t) => if t != 0.0 then t else ScoreSum(st.subjectScores)
    case None => ScoreSum(st.subjectScores)
  }

  /** A recorded total of 0 is falsy: it is replaced by the sum of the subject scores, just
      as a missing total is, whatever those scores are. */
  lemma ZeroTotalFallsBack(st: Student)
    requires st.totalScore == Some(0.0)
    ensures TotalMarks(st) == ScoreSum(st.subjectScores)
    ensures TotalMarks(st) == TotalMarks(st.(totalScore := None))
  {
  }

  /** Without a truthy recorded total and with every present score between 0 and 100, the
      total marks lie between 0 and 100 per entry. */
  lemma FallbackTotalBounds(st: Student)
    requires st.totalScore.None? || st.totalScore == Some(0.0)
    requires forall e :: e in st.subjectScores && e.score.Some? ==> 0.0 <= e.score.value <= 100.0
    ensures 0.0 <= TotalMarks(st) <= 100.0 * |st.subjectScores| as real
  {
    ScoreSumBounds(st.subjectScores);
  }

  /** Number.MAX_SAFE_INTEGER, the rank given to a student without one. */
  const MaxSafeInteger: int := 9007199254740991

  /** `class_rank || Number.MAX_SAFE_INTEGER`: a missing or zero rank sorts as the largest
      safe integer. */
  function EffectiveRank(st: Student): (k: int)
    ensures st.classRank.Some? && st.classRank.value != 0 ==> k == st.classRank.value
    ensures st.classRank.None? || st.classRank.value == 0 ==> k == MaxSafeInteger
  {
    match st.classRank
    case Some(k) => if k != 0 then k else MaxSafeInteger
    case None => MaxSafeInteger
  }

  /** The roster's sort key. */
  function RankKey(st: Student): real {
    EffectiveRank(st) as real
  }

  /** The rank shown in the roster's rank column: `class_rank || ''`. */
  function ShownRank(st: Student): Option<int> {
    match st.classRank
    case Some(k) => if k != 0 then Some(k) else None
    case None => None
  }
}
