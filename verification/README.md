# School results export: grading and report aggregation

This project is a Dafny model of the computational core of `src/utils/exportUtils.js`. That file is the export layer of a school-results web application. The model covers:

- the two grade ladders: `calculateGrade`, which maps a subject score to one of twelve letters, and `calculateTotalGrade`, which maps total marks out of a maximum (1100 by default) to a letter;
- `formatScoreWithGrade`, the cell text of a score, such as `75A`;
- `getUniqueSubjects`, the sorted set of subject names across the roster;
- the lookups: `getTeacherForSubject`, `getSubjectAbbreviation` and `getGradeRemarks`;
- the roster statistics: `calculateSubjectMean`, `calculateClassMean` and `calculateSubjectRankings`;
- the data assembled by `exportResultsToExcel`:
  - the roster sorted by class rank, where a missing or zero rank goes last;
  - one row per student, with the total-marks fallback;
  - the mean row, the ranking table, and the class mean with its letter;
- the data assembled by the two individual-report exporters: subject lines with their teacher, letter and remark filled in, and the academic summary (rounded total marks, percentage, overall letter, class rank and stream rank).

Numbers are exact reals. A score is `Option<real>`, where `None` stands for a missing, null, empty or non-numeric value. JavaScript's `Math.round` is written out as `floor(x + 0.5)`.

The model keeps these behaviours of the code exactly as written:
- Every mean of the roster report is divided by an extra 12 (`MeanNormalization`). Because of this, whenever every score is at most 100, every subject in the ranking table gets the letter E (`Statistics.RankingGradesAreE`).
- The subject mean counts students with a missing score as zero, in both the sum and the count. The ranking mean leaves out non-positive scores altogether.
- A recorded total of 0 is falsy, so the sum of the subject scores is used instead.
- `getSubjectAbbreviation` has the key `BUSINESS`, not `BUSINESS STUDIES`. So "Business Studies" is abbreviated `BUSI`.
- `formatScoreWithGrade` grades the unrounded score. So 74.6 is printed as `75A-`.

Module layout:

| file | module | contents |
|---|---|---|
| `wrappers.dfy` | `Wrappers` | `Option` |
| `grading.dfy` | `Grading` | letters, the two ladders, rounding, score cells |
| `directory.dfy` | `Directory` | ASCII upper-casing, JavaScript trim, teacher, abbreviation and remark tables |
| `records.dfy` | `Records` | student and subject-score records, entry lookup, total-marks fallback, rank key |
| `stable_sort.dfy` | `StableSort` | a generic stable insertion sort, its uniqueness, sums and counts |
| `string_order.dfy` | `StringOrder` | the default string order of `Array.prototype.sort` |
| `subjects.dfy` | `Subjects` | `getUniqueSubjects` |
| `statistics.dfy` | `Statistics` | subject and class means, subject rankings |
| `roster.dfy` | `Roster` | roster order, rows and the whole roster report |
| `individual.dfy` | `Individual` | subject lines and summary of the individual report |

## Model

| member | source | states |
|---|---|---|
| Grading.SubjectGrade | src/utils/exportUtils.js:19-34 | A missing score gets "-" and nothing else does. A score below 25 gets E. A score of 75 or more gets A. |
| Grading.SubjectGradeBands | src/utils/exportUtils.js:22-33 | A score gets the i-th letter exactly when it reaches the i-th threshold and is below the one before it. |
| Grading.SubjectGradeMonotone | src/utils/exportUtils.js:22-33 | A higher score never gets a worse letter. |
| Grading.ClassifyMonotone | src/utils/exportUtils.js:22-33 | On any strictly decreasing 11-threshold ladder, a larger value never gets a worse letter. |
| Grading.ClassifyBands | src/utils/exportUtils.js:22-33 | On a strictly decreasing ladder, each letter covers exactly one half-open band. E is given exactly below the last threshold. |
| Grading.FirstMet | src/utils/exportUtils.js:22-33 | The ladder stops at the first threshold the value reaches. Every earlier threshold is above the value. |
| Grading.SubjectScaleWellFormed | src/utils/exportUtils.js:22-32 | The subject thresholds 75 down to 25 are strictly decreasing. |
| Grading.TotalScaleWellFormed | src/utils/exportUtils.js:39-49 | The percentage thresholds 78 down to 20 are strictly decreasing. |
| Grading.TotalGrade | src/utils/exportUtils.js:36-51 | A missing total gets "-" and a present one never does. With a positive maximum, a total below a fifth of it gets E. |
| Grading.TotalGradeMonotone | src/utils/exportUtils.js:38-50 | With a positive maximum, a larger total never gets a worse overall letter. |
| Grading.TotalGradeInMarks | src/utils/exportUtils.js:36-51 | Out of 1100, the percentage ladder equals a ladder on the marks themselves: 858, 825, 770, 715, 605, 528, 440, 385, 330, 275, 220. |
| Grading.TotalGradeExample | src/utils/exportUtils.js:36-39 | 900 marks out of the default 1100 get an A. |
| Grading.GradeTextRoundTrip | src/utils/exportUtils.js:22-33 | Each printed letter reads back as the same letter. |
| Grading.ParseGrade | src/utils/exportUtils.js:150-165 | A text is recognised as a letter only when it is that letter's printed form. |
| Grading.Round | src/utils/exportUtils.js:56 | Math.round gives the integer within half a unit of its argument, with halves rounded up. |
| Grading.FormatScoreWithGrade | src/utils/exportUtils.js:53-57 | The cell is blank exactly when the score is missing. Otherwise it shows the rounded score and the letter of the unrounded score. |
| Grading.CellLetterIgnoresRounding | src/utils/exportUtils.js:55-56 | 74.6 is printed as 75 A-, although a score of 75 gets an A. |
| Directory.Upper | src/utils/exportUtils.js:88 | Upper-casing keeps the length. Each ASCII letter a-z becomes its capital, and every other character is kept. |
| Directory.UpperIdempotent | src/utils/exportUtils.js:88 | Upper-casing twice is the same as once. |
| Directory.TrimStart | src/utils/exportUtils.js:88 | The result is a suffix of the input. Only whitespace is removed, and the result does not start with whitespace. |
| Directory.TrimEnd | src/utils/exportUtils.js:88 | The result is a prefix of the input. Only whitespace is removed, and the result does not end with whitespace. |
| Directory.TrimPadding | src/utils/exportUtils.js:88 | Trimming ignores whitespace padding on either side. |
| Directory.TeacherFor | src/utils/exportUtils.js:72-89 | The result is "N/A" exactly when the trimmed upper-case name is not in the teacher table. Otherwise it is that table's entry. |
| Directory.TeacherIgnoresCase | src/utils/exportUtils.js:86-89 | Names equal up to case get the same teacher. |
| Directory.TeacherIgnoresPadding | src/utils/exportUtils.js:86-89 | Surrounding whitespace does not change the teacher. |
| Directory.TeacherExampleLowerCase | src/utils/exportUtils.js:75-88 | "physics" gets "ODWAR J". |
| Directory.TeacherExampleUnlisted | src/utils/exportUtils.js:72-88 | An unlisted subject gets "N/A". |
| Directory.Abbreviation | src/utils/exportUtils.js:132-148 | A listed upper-case name gives its table entry. An unlisted name gives its first four characters in upper case. The result has at most four characters and is empty exactly for an empty name. |
| Directory.AbbreviationIgnoresCase | src/utils/exportUtils.js:146-147 | Names equal up to case get the same abbreviation. |
| Directory.AbbreviationExamples | src/utils/exportUtils.js:133-147 | "english" gives ENG, "ART" stays ART, and "Business Studies" gives BUSI because the table's key is BUSINESS. |
| Directory.Remark | src/utils/exportUtils.js:150-166 | A listed letter gets its own remark from the table. The fallback remark is given exactly for texts that are not in the table. |
| Directory.RemarkKeysAreLetters | src/utils/exportUtils.js:151-164 | The remark table has an entry for exactly the twelve printed letters. |
| Directory.RemarkOfMark | src/utils/exportUtils.js:19-20 | The remark of a computed letter is pending exactly when the score was missing ("-"). |
| Records.FindEntry | src/utils/exportUtils.js:95 | find returns the first entry with the subject name. |
| Records.EntryFor | src/utils/exportUtils.js:95 | No entry is found exactly when no entry has the name. Otherwise the first entry with that name is found, as `find` does. |
| Records.ScoreOf | src/utils/exportUtils.js:94-96 | A student's score in a subject is the score of the first entry with that name. It is 0 when there is no such entry or that entry has no score. |
| Records.TotalMarks | src/utils/exportUtils.js:220-221 | The total marks are the recorded total when it is present and non-zero. Otherwise they are the sum of the subject scores, a missing score counting as 0. |
| Records.EffectiveRank | src/utils/exportUtils.js:203-204 | The sort key is the class rank when it is present and non-zero. Otherwise it is MAX_SAFE_INTEGER. |
| Records.ScoreSumBounds | src/utils/exportUtils.js:221 | With scores in 0..100, the sum of a student's scores lies between 0 and 100 per entry. |
| Records.ZeroTotalFallsBack | src/utils/exportUtils.js:220-221 | A recorded total of 0 is treated like a missing one and replaced by the sum of the subject scores, whatever those scores are. |
| Records.FallbackTotalBounds | src/utils/exportUtils.js:220-221 | Without a truthy recorded total and with scores in 0..100, the total marks lie between 0 and 100 per entry. |
| StableSort.Sort | src/utils/exportUtils.js:202-206 | Sorting keeps the length and the elements, as a multiset. |
| StableSort.SortCorrect | src/utils/exportUtils.js:202-206 | The result is ordered by key, and elements with equal keys keep their relative order. |
| StableSort.SortedRunsUnique | src/utils/exportUtils.js:202-206 | Any two sequences ordered by key with the same runs of equal keys are equal. So a stable sort has exactly one result. |
| StableSort.SumOfSort | src/utils/exportUtils.js:98 | Sorting does not change a sum over the elements. |
| StableSort.CountWhereSort | src/utils/exportUtils.js:118 | Sorting does not change how many elements satisfy a test. |
| StringOrder.LessTransitive | src/utils/exportUtils.js:68 | The default string order is transitive. |
| StringOrder.LessTotal | src/utils/exportUtils.js:68 | The default string order is total on distinct strings. |
| StringOrder.StrictlySortedUnique | src/utils/exportUtils.js:60-68 | Two strictly sorted lists with the same members are equal. |
| Subjects.AddName | src/utils/exportUtils.js:64 | Adding a name to a sorted set keeps it strictly sorted, with exactly the old members plus the name. |
| Subjects.EntryNames | src/utils/exportUtils.js:62-65 | Exactly the non-empty subject names of one student's entries. |
| Subjects.UniqueSubjects | src/utils/exportUtils.js:59-69 | Strictly sorted, without duplicates. A name is present exactly when some student has an entry with that non-empty name. |
| Subjects.UniqueSubjectsOrderIndependent | src/utils/exportUtils.js:59-69 | Rosters with the same students, in any order or multiplicity, give the same subject list. |
| Subjects.UniqueSubjectsIgnoresEmptyStudent | src/utils/exportUtils.js:62 | A student without subject entries adds nothing. |
| Subjects.DistinctIdempotent | src/utils/exportUtils.js:68 | A strictly sorted list is its own sorted set. |
| Statistics.SubjectMean | src/utils/exportUtils.js:93-100 | 0 for no students. Otherwise the mean times the number of students times 12 is the sum of the scores, a missing score counting as 0. |
| Statistics.ClassMean | src/utils/exportUtils.js:102-109 | 0 for no students. Otherwise the mean times the number of students times 12 is the sum of the total marks with their fallback. |
| Statistics.RankingMean | src/utils/exportUtils.js:113-119 | 0 when no score is positive. Otherwise the mean times the number of positive scores times 12 is their sum. |
| Statistics.StatFor | src/utils/exportUtils.js:113-126 | A subject's row carries the subject, its ranking mean, the per-subject letter of that mean, and the directory's teacher. |
| Statistics.SubjectMeanCountsMissing | src/utils/exportUtils.js:96-99 | A student with no score still enlarges the subject mean's denominator. |
| Statistics.ClassMeanCountsEveryStudent | src/utils/exportUtils.js:103-108 | A student with zero total marks still enlarges the class mean's denominator. |
| Statistics.RankingMeanIgnoresNonPositive | src/utils/exportUtils.js:116-119 | A zero, negative or missing score does not change the ranking mean. |
| Statistics.MeanBounds | src/utils/exportUtils.js:93-119 | With scores in 0..100, both means lie in 0..100/12. |
| Statistics.RankingGradesAreE | src/utils/exportUtils.js:119-120 | With scores of at most 100, every subject in the ranking table is graded E. |
| Statistics.SubjectMeanExample | src/utils/exportUtils.js:93-100 | Scores 84 and 96 give a subject mean of 7.5. |
| Statistics.RankingMeanExample | src/utils/exportUtils.js:113-119 | Scores 0 and 80 give a ranking mean of 80/12. The 0 is left out. |
| Statistics.StatsFor | src/utils/exportUtils.js:112-127 | One row per subject, in the given order, with mean, letter and teacher. |
| Statistics.Number | src/utils/exportUtils.js:129 | Positions are 1, 2, … in order, and the rows are otherwise unchanged. |
| Statistics.SubjectRankings | src/utils/exportUtils.js:111-130 | The rows are a permutation of the per-subject rows, in non-increasing order of mean, with ties in subject order. Positions are 1..N. Each row's mean is the ranking mean, its letter is that of the mean, and its teacher is the directory's. |
| Statistics.MeansIgnoreOrder | src/utils/exportUtils.js:93-119 | Re-ordering the roster changes none of the means. |
| Roster.SortRoster | src/utils/exportUtils.js:202-206 | A permutation of the roster, in non-decreasing order of rank. A falsy rank counts as MAX_SAFE_INTEGER. Students with equal ranks keep their order. |
| Roster.RosterOrderIsUnique | src/utils/exportUtils.js:202-206 | Any roster order with these properties is exactly the sorted roster. |
| Roster.UnrankedLast | src/utils/exportUtils.js:203-205 | In the sorted roster, every student with a missing or zero rank comes after every student with a truthy rank below MAX_SAFE_INTEGER. |
| Roster.CellFor | src/utils/exportUtils.js:214-218 | The cell is blank exactly when the student has no entry, or no score, for the subject. Otherwise it shows the rounded score and its letter. |
| Roster.RowFor | src/utils/exportUtils.js:208-224 | One cell per subject. The total marks are rounded, with the recorded-total fallback, and the overall letter is out of 1100 and never "-". The rank cell is empty exactly when the rank is falsy. |
| Roster.Rows | src/utils/exportUtils.js:208-238 | One row per student in roster order. The rows' ranks are the students' effective ranks. |
| Roster.Means | src/utils/exportUtils.js:245-250 | The mean row has one subject mean per subject. |
| Roster.StatisticsIgnoreRosterOrder | src/utils/exportUtils.js:247-281 | Computing the statistics on the sorted roster gives the same means, rankings and class mean as on the unsorted one. |
| Roster.BuildRoster | src/utils/exportUtils.js:168-285 | The whole report: the subject columns are the unique subjects, headed by their abbreviations; the rows follow the rank-sorted roster; the mean row, the ranking table and the class mean equal those of the students; the class mean's letter comes from the subject ladder. |
| Individual.EnrichSubject | src/utils/exportUtils.js:367-378 | The recorded letter, teacher and remark are kept when present. Otherwise the letter comes from the score, the teacher from the directory, and the remark from the letter. The shown score is the rounding of the score, with 0 for a missing one. |
| Individual.PendingRemarkOnlyWithoutScore | src/utils/exportUtils.js:369-378 | Without recorded values, a subject line's remark is pending exactly when its score is missing. |
| Individual.Summarize | src/utils/exportUtils.js:569-577 | Total marks are the recorded total when truthy, otherwise the sum of the listed scores, and they are printed rounded. The percentage is the total over 1100. The overall letter is the recorded one, or else a valid letter from the total ladder. The class and stream ranks are shown exactly when truthy. |
| Individual.ShownOrNone | src/utils/exportUtils.js:726-727 | A rank is shown exactly when it is present and non-zero, and it is then shown unchanged. |
| Individual.SummaryExample | src/utils/exportUtils.js:575-577 | A recorded total of 900 is 900/11 per cent and an A. |

## Left out

- Rendering and I/O are not modelled: the ExcelJS workbook, the docx document, the HTML page, styling, `loadImageAsBase64`, `downloadBlob`, `generateFilename` and `getGradeColor`. Only the values these put into cells are modelled.
- `toFixed` formatting of means and percentages, and the conversion of integers to text, are left out. The model keeps the exact numbers.
- Floating point is replaced by exact reals. Rounding error in `/ 12` and `/ 1100 * 100` is not modelled, so a total exactly on a boundary may grade differently in the program.
- Scores are numbers or missing. A truthy non-numeric score is represented only by `None`. `calculateGrade` would give it E, not "-", and that case is not represented.
- Grading.SubjectGrade: the letter of a score given as numeric text is computed as for the number. `parseFloat` on strings is not modelled.
- Directory.Upper: only ASCII letters are upper-cased. Non-ASCII case mapping of `toUpperCase` is not modelled.
- StringOrder.LessTotal: strings are compared by code point. `Array.prototype.sort` compares UTF-16 code units. The two orders differ only for characters outside the Basic Multilingual Plane.
- Directory.Remark: inherited object keys, such as `constructor`, that `remarks[grade]` would also find are not modelled.
- Field aliases are not modelled: `admission_number`/`admission_no` and `fullname`/`name` are taken as one field each.
- Individual.EnrichSubject: a subject line's displayed name `subject_name || name` is taken to be `subject_name`. The model has no separate `name` field for an entry, so a line that has only `name` is not represented. The teacher is still looked up on `subject_name` alone, as the code does.
- Directory.Abbreviation: `substring(0, 4)` counts UTF-16 code units, while the model counts characters. The two differ only for names with characters outside the Basic Multilingual Plane in their first four positions.
- Individual.Summarize: the "Class:" and name lines of the student-information block are display text and are left out. `toFixed(1)` on the percentage is left out as well.
- Records.EffectiveRank: ranks are exact integers. Precision loss beyond 2^53 in `rankA - rankB` is not modelled.
- The filter arguments of the exporters, school and sheet titles, and the comments block of the individual report are left out. They only feed rendering.
- `src/api` and `vite.config.js` are not part of this model.
