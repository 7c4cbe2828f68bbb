/** getUniqueSubjects: the distinct subject names of a roster, sorted. */
module Subjects {
  import opened Records
  import opened StringOrder

  /** `name` is the non-empty subject name of some entry of some student. */
  ghost predicate IsSubjectOf(students: seq<Student>, name: string) {
    name != "" && exists st, e :: st in students && e in st.subjectScores && e.subjectName == name
  }

  /** Adds `x` to a strictly sorted sequence, keeping it strictly sorted (a Set.add followed
      by the final sort). */
  function AddName(x: string, s: seq<string>): (r: seq<string>)
    requires StrictlySorted(s)
    ensures StrictlySorted(r)
    ensures forall y :: y in r <==> y == x || y in s
  {
    if s == [] then [x]
    else if x == s[0] then s
    else if Less(x, s[0]) then
      assert StrictlySorted([x] + s) by {
        forall j | 0 < j < |s| {
          LessTransitive(x, s[0], s[j]);
        }
      }
      [x] + s
    else
      var rest := AddName(x, s[1..]);
      assert StrictlySorted([s[0]] + rest) by {
        LessTotal(x, s[0]);
        forall y | y in rest
          ensures Less(s[0], y)
        {
          if y != x {
            var j :| 0 <= j < |s[1..]| && s[1..][j] == y;
          }
        }
      }
      [s[0]] + rest
  }

  /** The non-empty subject names of a list of entries, in order. */
  function EntryNames(scores: seq<SubjectScore>): (r: seq<string>)
    ensures forall x :: x in r <==> x != "" && exists e :: e in scores && e.subjectName == x
  {
    if scores == [] then []
    else
      var rest := EntryNames(scores[1..]);
      assert forall e :: e in scores <==> e == scores[0] || e in scores[1..] by {
        assert scores == [scores[0]] + scores[1..];
      }
      (if scores[0].subjectName != "" then [scores[0].subjectName] else []) + rest
  }

  /** Every non-empty subject name of the roster, student by student. */
  function RosterNames(students: seq<Student>): (r: seq<string>)
    ensures forall x :: x in r <==> IsSubjectOf(students, x)
  {
    if students == [] then []
    else
      var rest := RosterNames(students[1..]);
      assert forall st :: st in students <==> st == students[0] || st in students[1..] by {
        assert students == [students[0]] + students[1..];
      }
      EntryNames(students[0].subjectScores) + rest
  }

  /** The distinct elements of `names`, strictly sorted. */
  function Distinct(names: seq<string>): (r: seq<string>)
    ensures StrictlySorted(r)
    ensures forall x :: x in r <==> x in names
  {
    if names == [] then []
    else
      assert forall x :: x in names <==> x == names[0] || x in names[1..] by {
        assert names == [names[0]] + names[1..];
      }
      AddName(names[0], Distinct(names[1..]))
  }

  /** getUniqueSubjects: strictly sorted, so free of repetitions, and holding exactly the
      non-empty subject names that occur anywhere in the roster. */
  function UniqueSubjects(students: seq<Student>): (r: seq<string>)
    ensures StrictlySorted(r)
    ensures forall x :: x in r <==> IsSubjectOf(students, x)
  {
    Distinct(RosterNames(students))
  }

  /** The result depends only on which students the roster holds, not on their order or
      repetitions; so the roster sort does not change the subject columns. */
  lemma UniqueSubjectsOrderIndependent(a: seq<Student>, b: seq<Student>)
    requires forall st :: st in a <==> st in b
    ensures UniqueSubjects(a) == UniqueSubjects(b)
  {
    StrictlySortedUnique(UniqueSubjects(a), UniqueSubjects(b));
  }

  /** A student without subject scores contributes no column. */
  lemma UniqueSubjectsIgnoresEmptyStudent(students: seq<Student>, st: Student)
    requires st.subjectScores == []
    ensures UniqueSubjects(students + [st]) == UniqueSubjects(students)
  {
    var with := students + [st];
    forall x
      ensures IsSubjectOf(with, x) <==> IsSubjectOf(students, x)
    {
      if IsSubjectOf(with, x) {
        var s, e :| s in with && e in s.subjectScores && e.subjectName == x;
        assert s in students;
      }
      if IsSubjectOf(students, x) {
        var s, e :| s in students && e in s.subjectScores && e.subjectName == x;
        assert s in with;
      }
    }
    StrictlySortedUnique(UniqueSubjects(with), UniqueSubjects(students));
  }

  /** Collecting the names of an already sorted, repetition-free list gives it back. */
  lemma DistinctIdempotent(names: seq<string>)
    requires StrictlySorted(names)
    ensures Distinct(names) == names
  {
    StrictlySortedUnique(Distinct(names), names);
  }
}
