/** The two letter-grade scales of the report engine: the per-subject scale and the
    overall scale applied to a total's percentage of the maximum. */
module Grading {
  import opened Wrappers

  /** The twelve letters, best first. */
  datatype Grade = A | AMinus | BPlus | B | BMinus | CPlus | C | CMinus | DPlus | D | DMinus | E

  /** What a grading function returns: a letter, or the "-" shown for a missing score. */
  datatype Mark = Dash | Letter(grade: Grade)

  /** Position of a letter in the order A, A-, B+, ..., D-, E; 0 is the best. */
  function Rank(g: Grade): nat {
    match g
    case A => 0
    case AMinus => 1
    case BPlus => 2
    case B => 3
    case BMinus => 4
    case CPlus => 5
    case C => 6
    case CMinus => 7
    case DPlus => 8
    case D => 9
    case DMinus => 10
    case E => 11
  }

  /** The letter as the reports print it. */
  function GradeText(g: Grade): string {
    match g
    case A => "A"
    case AMinus => "A-"
    case BPlus => "B+"
    case B => "B"
    case BMinus => "B-"
    case CPlus => "C+"
    case C => "C"
    case CMinus => "C-"
    case DPlus => "D+"
    case D => "D"
    case DMinus => "D-"
    case E => "E"
  }

  function MarkText(m: Mark): string {
    match m
    case Dash => "-"
    case Letter(g) => GradeText(g)
  }

  /** Reads a printed letter back; anything else is not a grade. */
  function ParseGrade(text: string): (r: Option<Grade>)
    ensures r.Some? ==> GradeText(r.value) == text
  {
    if text == "A" then Some(A)
    else if text == "A-" then Some(AMinus)
    else if text == "B+" then Some(BPlus)
    else if text == "B" then Some(B)
    else if text == "B-" then Some(BMinus)
    else if text == "C+" then Some(CPlus)
    else if text == "C" then Some(C)
    else if text == "C-" then Some(CMinus)
    else if text == "D+" then Some(DPlus)
    else if text == "D" then Some(D)
    else if text == "D-" then Some(DMinus)
    else if text == "E" then Some(E)
    else None
  }

  /** Printing a letter and reading it back gives the letter; so no two letters print alike. */
  lemma GradeTextRoundTrip(g: Grade)
    ensures ParseGrade(GradeText(g)) == Some(g)
  {
  }

  /** The letter of rank i (A for 0, ..., D- for 10); E for every rank from 11 on. */
  function LetterAt(i: nat): (g: Grade)
    ensures i <= 11 ==> Rank(g) == i
    ensures i >= 11 ==> g == E
  {
    if i == 0 then A else if i == 1 then AMinus else if i == 2 then BPlus
    else if i == 3 then B else if i == 4 then BMinus else if i == 5 then CPlus
    else if i == 6 then C else if i == 7 then CMinus else if i == 8 then DPlus
    else if i == 9 then D else if i == 10 then DMinus else E
  }

  /** A grade scale: the thresholds of the letters A, A-, B+, ..., D- in that order. A value
      gets the letter of the first threshold it meets or exceeds, and E below all of them.
      Both scales of the engine list the same eleven letters, so only thresholds vary. */
  type Scale = seq<real>

  /** Per-subject thresholds, exportUtils.js lines 22-33. */
  const SubjectScale: Scale := [75.0, 70.0, 65.0, 60.0, 55.0, 50.0, 45.0, 40.0, 35.0, 30.0, 25.0]

  /** Overall thresholds on a percentage, exportUtils.js lines 39-50. */
  const TotalScale: Scale := [78.0, 75.0, 70.0, 65.0, 55.0, 48.0, 40.0, 35.0, 30.0, 25.0, 20.0]

  /** The default maximum total a student can reach (eleven subjects of 100). */
  const DefaultMaxPossible: real := 1100.0

  /** Eleven thresholds, strictly falling. */
  ghost predicate WellFormed(scale: Scale) {
    && |scale| == 11
    && forall i :: 0 < i < |scale| ==> scale[i] < scale[i - 1]
  }

  /** Index of the first threshold `v` meets, or |scale| when it meets none. */
  function FirstMet(scale: Scale, v: real): (i: nat)
    ensures i <= |scale|
    ensures forall j :: 0 <= j < i ==> v < scale[j]
    ensures i < |scale| ==> scale[i] <= v
  {
    if |scale| == 0 then 0
    else if v >= scale[0] then 0
    else 1 + FirstMet(scale[1..], v)
  }

  /** The letter a scale gives to `v`. */
  function Classify(scale: Scale, v: real): Grade {
    LetterAt(FirstMet(scale, v))
  }

  /** Thresholds fall along a well-formed scale. */
  lemma {:induction false} ThresholdAlongScale(scale: Scale, i: nat, j: nat)
    requires WellFormed(scale)
    requires i < j < |scale|
    ensures scale[j] < scale[i]
    decreases j - i
  {
    if i < j - 1 {
      ThresholdAlongScale(scale, i, j - 1);
    }
  }

  /** A higher value never gets a worse letter on a well-formed scale. */
  lemma ClassifyMonotone(scale: Scale, x: real, y: real)
    requires WellFormed(scale)
    requires y <= x
    ensures Rank(Classify(scale, x)) <= Rank(Classify(scale, y))
  {
    var ix, iy := FirstMet(scale, x), FirstMet(scale, y);
    assert ix <= iy;
  }

  /** Reference reading of a scale as bands: the i-th letter is given exactly to the values
      from its threshold up to (not including) the previous threshold, and E exactly to the
      values below the last threshold. */
  lemma ClassifyBands(scale: Scale, v: real)
    requires WellFormed(scale)
    ensures forall i :: 0 <= i < |scale| ==>
              (Classify(scale, v) == LetterAt(i) <==> scale[i] <= v && (i == 0 || v < scale[i - 1]))
    ensures Classify(scale, v) == E <==> v < scale[|scale| - 1]
  {
    var k := FirstMet(scale, v);
    forall i | 0 <= i < |scale|
      ensures Classify(scale, v) == LetterAt(i) <==> scale[i] <= v && (i == 0 || v < scale[i - 1])
    {
      if k < i - 1 {
        ThresholdAlongScale(scale, k, i - 1);
      }
    }
    if v < scale[|scale| - 1] && k < |scale| - 1 {
      ThresholdAlongScale(scale, k, |scale| - 1);
    }
  }

  lemma SubjectScaleWellFormed()
    ensures WellFormed(SubjectScale)
  {
  }

  lemma TotalScaleWellFormed()
    ensures WellFormed(TotalScale)
  {
  }

  /** calculateGrade: "-" for a missing score, otherwise the per-subject letter. Every present
      score, whatever its sign or size, gets exactly one letter. */
  function SubjectGrade(score: Option<real>): (m: Mark)
    ensures m == Dash <==> score.None?
    ensures score.Some? && score.value < 25.0 ==> m == Letter(E)
    ensures score.Some? && score.value >= 75.0 ==> m == Letter(A)
  {
    match score
    case None => Dash
    case Some(s) => Letter(Classify(SubjectScale, s))
  }

  /** A higher score never gets a worse per-subject letter. */
  lemma SubjectGradeMonotone(s1: real, s2: real)
    requires s2 <= s1
    ensures Rank(SubjectGrade(Some(s1)).grade) <= Rank(SubjectGrade(Some(s2)).grade)
  {
    SubjectScaleWellFormed();
    ClassifyMonotone(SubjectScale, s1, s2);
  }

  /** A score gets letter g exactly when it lies in g's band of the per-subject table
      (A from 75 up, A- from 70 below 75, ..., D- from 25 below 30, E below 25). */
  lemma SubjectGradeBands(s: real, i: nat)
    requires i < |SubjectScale|
    ensures SubjectGrade(Some(s)) == Letter(LetterAt(i)) <==>
              SubjectScale[i] <= s && (i == 0 || s < SubjectScale[i - 1])
  {
    SubjectScaleWellFormed();
    ClassifyBands(SubjectScale, s);
  }

  /** The percentage of the maximum that a total represents, as JavaScript evaluates
      `total / maxPossible * 100` for a non-zero maximum. */
  function Percentage(total: real, maxPossible: real): real
    requires maxPossible != 0.0
  {
    total / maxPossible * 100.0
  }

  /** calculateTotalGrade: "-" for a missing total, otherwise the overall letter of the
      total's percentage of `maxPossible`. A zero maximum makes the percentage +Infinity
      (letter A) for a positive total and -Infinity or NaN (letter E) otherwise. */
  function TotalGrade(total: Option<real>, maxPossible: real): (m: Mark)
    ensures m == Dash <==> total.None?
    ensures total.Some? && maxPossible > 0.0 && total.value < maxPossible / 5.0 ==> m == Letter(E)
  {
    match total
    case None => Dash
    case Some(t) =>
      if maxPossible == 0.0 then Letter(if t > 0.0 then A else E)
      else
        var p := Percentage(t, maxPossible);
        assert maxPossible > 0.0 && t < maxPossible / 5.0 ==> p < 20.0 by {
          if maxPossible > 0.0 && t < maxPossible / 5.0 {
            DivideStrict(t, maxPossible / 5.0, maxPossible);
            assert (maxPossible / 5.0) / maxPossible == 1.0 / 5.0;
          }
        }
        Letter(Classify(TotalScale, p))
  }

  lemma DivideStrict(a: real, b: real, m: real)
    requires m > 0.0 && a < b
    ensures a / m < b / m
  {
    assert b / m - a / m == (b - a) / m;
  }

  /** For a fixed positive maximum a higher total never gets a worse overall letter. */
  lemma TotalGradeMonotone(t1: real, t2: real, maxPossible: real)
    requires maxPossible > 0.0
    requires t2 <= t1
    ensures Rank(TotalGrade(Some(t1), maxPossible).grade) <= Rank(TotalGrade(Some(t2), maxPossible).grade)
  {
    assert t2 / maxPossible <= t1 / maxPossible;
    TotalScaleWellFormed();
    ClassifyMonotone(TotalScale, Percentage(t1, maxPossible), Percentage(t2, maxPossible));
  }

  /** The overall scale in marks out of the default 1100: 858 and above is A, 825 A-,
      770 B+, 715 B, 605 B-, 528 C+, 440 C, 385 C-, 330 D+, 275 D, 220 D-, below that E. */
  const TotalMarkScale: Scale := [858.0, 825.0, 770.0, 715.0, 605.0, 528.0, 440.0, 385.0, 330.0, 275.0, 220.0]

  /** Grading a total as a percentage of 1100 is the same as grading the marks directly
      against the thresholds in marks. */
  lemma TotalGradeInMarks(t: real)
    ensures TotalGrade(Some(t), DefaultMaxPossible) == Letter(Classify(TotalMarkScale, t))
  {
    var p := Percentage(t, DefaultMaxPossible);
    assert forall i :: 0 <= i < |TotalScale| ==> (TotalMarkScale[i] <= t <==> TotalScale[i] <= p);
    var i := FirstMet(TotalScale, p);
    var k := FirstMet(TotalMarkScale, t);
  }

  /** 900 out of 1100 is about 81.8%, which is an A. */
  lemma TotalGradeExample()
    ensures TotalGrade(Some(900.0), DefaultMaxPossible) == Letter(A)
  {
  }

  /** JavaScript's Math.round: the nearest integer, halves rounded up. */
  function Round(x: real): (n: int)
    ensures n as real - 0.5 <= x < n as real + 0.5
  {
    (x + 0.5).Floor
  }

  /** A roster cell: "-" or the rounded score followed by its letter. */
  datatype Cell = Blank | Marked(rounded: int, grade: Grade)

  /** formatScoreWithGrade. The letter is that of the exact score, not of the rounded one. */
  function FormatScoreWithGrade(score: Option<real>): (c: Cell)
    ensures c.Blank? <==> score.None?
    ensures c.Marked? ==> Letter(c.grade) == SubjectGrade(score)
    ensures c.Marked? ==> c.rounded as real - 0.5 <= score.value < c.rounded as real + 0.5
  {
    match score
    case None => Blank
    case Some(s) => Marked(Round(s), Classify(SubjectScale, s))
  }

  /** Because the letter comes from the unrounded score, 74.6 is shown as "75A-" although
      a score of 75 is an A. */
  lemma CellLetterIgnoresRounding()
    ensures FormatScoreWithGrade(Some(74.6)) == Marked(75, AMinus)
    ensures SubjectGrade(Some(75.0)) == Letter(A)
  {
  }
}
