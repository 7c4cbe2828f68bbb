/** The static lookups of the report engine: subject teacher, subject abbreviation and the
    remark printed for a letter grade, each with its fallback. */
module Directory {
  import opened Grading

  /** The characters String.prototype.trim removes: ECMAScript WhiteSpace and LineTerminator. */
  predicate IsSpace(c: char) {
    var n := c as int;
    || (0x09 <= n <= 0x0D) || n == 0x20 || n == 0xA0 || n == 0x1680
    || (0x2000 <= n <= 0x200A) || n == 0x2028 || n == 0x2029 || n == 0x202F
    || n == 0x205F || n == 0x3000 || n == 0xFEFF
  }

  predicate AllSpace(s: string) {
    forall i :: 0 <= i < |s| ==> IsSpace(s[i])
  }

  /** toUpperCase on one character, for the ASCII letters. */
  function UpperChar(c: char): char {
    if 'a' <= c <= 'z' then (c as int - 32) as char else c
  }

  /** toUpperCase, for ASCII text. */
  function Upper(s: string): (r: string)
    ensures |r| == |s|
    ensures forall i :: 0 <= i < |s| ==> !('a' <= r[i] <= 'z')
    ensures forall i :: 0 <= i < |s| && 'a' <= s[i] <= 'z' ==> r[i] as int == s[i] as int - 32
    ensures forall i :: 0 <= i < |s| && !('a' <= s[i] <= 'z') ==> r[i] == s[i]
  {
    seq(|s|, i requires 0 <= i < |s| => UpperChar(s[i]))
  }

  lemma UpperIdempotent(s: string)
    ensures Upper(Upper(s)) == Upper(s)
  {
  }

  lemma UpperConcat(a: string, b: string)
    ensures Upper(a + b) == Upper(a) + Upper(b)
  {
  }

  lemma UpperSpaces(s: string)
    requires AllSpace(s)
    ensures Upper(s) == s
  {
  }

  lemma UpperPrefix(s: string, n: nat)
    requires n <= |s|
    ensures Upper(s[..n]) == Upper(s)[..n]
  {
  }

  /** trimStart: drops the leading white space. */
  function TrimStart(s: string): (r: string)
    ensures |r| <= |s| && r == s[|s| - |r|..]
    ensures AllSpace(s[..|s| - |r|])
    ensures r == [] || !IsSpace(r[0])
  {
    if s != [] && IsSpace(s[0]) then TrimStart(s[1..]) else s
  }

  /** trimEnd: drops the trailing white space. */
  function TrimEnd(s: string): (r: string)
    ensures |r| <= |s| && r == s[..|r|]
    ensures AllSpace(s[|r|..])
    ensures r == [] || !IsSpace(r[|r| - 1])
  {
    if s != [] && IsSpace(s[|s| - 1]) then TrimEnd(s[..|s| - 1]) else s
  }

  /** trim: drops white space at both ends. */
  function Trim(s: string): (r: string) {
    TrimEnd(TrimStart(s))
  }

  lemma {:induction false} TrimStartSpaces(pre: string, y: string)
    requires AllSpace(pre)
    ensures TrimStart(pre + y) == TrimStart(y)
    decreases |pre|
  {
    if pre != [] {
      assert (pre + y)[1..] == pre[1..] + y;
      TrimStartSpaces(pre[1..], y);
    } else {
      assert pre + y == y;
    }
  }

  lemma TrimStartAllSpace(s: string)
    requires AllSpace(s)
    ensures TrimStart(s) == []
  {
    TrimStartSpaces(s, []);
    assert s + [] == s;
  }

  lemma {:induction false} TrimEndSpaces(y: string, post: string)
    requires AllSpace(post)
    ensures TrimEnd(y + post) == TrimEnd(y)
    decreases |post|
  {
    if post != [] {
      var n := |post| - 1;
      assert (y + post)[..|y + post| - 1] == y + post[..n];
      TrimEndSpaces(y, post[..n]);
    } else {
      assert y + post == y;
    }
  }

  /** Once the text starts with a visible character, trimming the front leaves the rest. */
  lemma {:induction false} TrimStartAppend(x: string, post: string)
    requires !AllSpace(x)
    ensures TrimStart(x + post) == TrimStart(x) + post
    decreases |x|
  {
    if IsSpace(x[0]) {
      assert (x + post)[1..] == x[1..] + post;
      TrimStartAppend(x[1..], post);
    }
  }

  /** White space around the text does not change what trim returns. */
  lemma TrimPadding(pre: string, x: string, post: string)
    requires AllSpace(pre) && AllSpace(post)
    ensures Trim(pre + x + post) == Trim(x)
  {
    assert pre + x + post == pre + (x + post);
    TrimStartSpaces(pre, x + post);
    if AllSpace(x) {
      assert AllSpace(x + post);
      TrimStartAllSpace(x + post);
      TrimStartAllSpace(x);
    } else {
      TrimStartAppend(x, post);
      TrimEndSpaces(TrimStart(x), post);
    }
  }

  const NoTeacher := "N/A"

  /** The default subject teachers, keyed by the upper-cased subject name. */
  const DefaultTeachers: map<string, string> := map[
    "BUSINESS STUDIES" := "OJWANG W.",
    "CRE" := "MILKA OYIER",
    "PHYSICS" := "ODWAR J",
    "MATHEMATICS" := "ODWAR J.",
    "CHEMISTRY" := "KENNEDY O.",
    "HISTORY" := "PAUL O",
    "AGRICULTURE" := "BRIAN O.",
    "KISWAHILI" := "OJWANG W",
    "ENGLISH" := "BRIAN O",
    "BIOLOGY" := "KENNEDY O.",
    "GEOGRAPHY" := "ODHIAMBO C"
  ]

  /** getTeacherForSubject: the teacher of the upper-cased, trimmed subject name, and "N/A"
      for an empty or unlisted name. */
  function TeacherFor(subjectName: string): (r: string)
    ensures r != NoTeacher <==> Trim(Upper(subjectName)) in DefaultTeachers
    ensures r != NoTeacher ==> r == DefaultTeachers[Trim(Upper(subjectName))]
  {
    if subjectName == "" then EmptyNameUnlisted(); NoTeacher
    else
      var key := Trim(Upper(subjectName));
      if key in DefaultTeachers then TeachersNamed(key); DefaultTeachers[key] else NoTeacher
  }

  /** The empty name has no entry in the teacher table. */
  lemma EmptyNameUnlisted()
    ensures Trim(Upper("")) !in DefaultTeachers
  {
    assert Upper("") == "";
    assert TrimStart("") == "";
    assert TrimEnd("") == "";
  }

  /** No listed teacher is "N/A". */
  lemma TeachersNamed(key: string)
    requires key in DefaultTeachers
    ensures DefaultTeachers[key] != NoTeacher
  {
  }

  /** The teacher lookup ignores ASCII letter case. */
  lemma TeacherIgnoresCase(a: string, b: string)
    requires Upper(a) == Upper(b)
    ensures TeacherFor(a) == TeacherFor(b)
  {
  }

  /** The teacher lookup ignores white space around the name. */
  lemma TeacherIgnoresPadding(pre: string, name: string, post: string)
    requires AllSpace(pre) && AllSpace(post)
    ensures TeacherFor(pre + name + post) == TeacherFor(name)
  {
    UpperConcat(pre + name, post);
    UpperConcat(pre, name);
    UpperSpaces(pre);
    UpperSpaces(post);
    TrimPadding(pre, Upper(name), post);
    if name == "" {
      assert Trim(Upper(name)) == "";
    }
  }

  /** Trimming leaves text that starts and ends with visible characters unchanged. */
  lemma TrimVisible(s: string)
    requires s != [] && !IsSpace(s[0]) && !IsSpace(s[|s| - 1])
    ensures Trim(s) == s
  {
  }

  lemma UpperPhysics()
    ensures Upper("physics") == "PHYSICS"
  {
  }

  lemma UpperArt()
    ensures Upper("ART") == "ART"
  {
  }

  lemma PhysicsListed()
    ensures "PHYSICS" in DefaultTeachers && DefaultTeachers["PHYSICS"] == "ODWAR J"
  {
  }

  lemma ArtUnlisted()
    ensures "ART" !in DefaultTeachers && "ART" !in Abbreviations
  {
  }

  lemma TeacherExampleLowerCase()
    ensures TeacherFor("physics") == "ODWAR J"
  {
    UpperPhysics();
    TrimVisible("PHYSICS");
    PhysicsListed();
  }

  lemma TeacherExampleUnlisted()
    ensures TeacherFor("ART") == NoTeacher
  {
    UpperArt();
    TrimVisible("ART");
    ArtUnlisted();
  }

  /** The subject abbreviations used as roster column headers. */
  const Abbreviations: map<string, string> := map[
    "ENGLISH" := "ENG",
    "KISWAHILI" := "KIS",
    "MATHEMATICS" := "MAT",
    "CHEMISTRY" := "CHEM",
    "BIOLOGY" := "BIO",
    "PHYSICS" := "PHY",
    "HISTORY" := "HIST",
    "GEOGRAPHY" := "GEO",
    "CRE" := "CRE",
    "AGRICULTURE" := "AGR",
    "BUSINESS" := "BST"
  ]

  /** getSubjectAbbreviation: the listed abbreviation of the upper-cased name, otherwise the
      name's first four characters upper-cased. It never exceeds four characters and is
      empty only for an empty name. */
  function Abbreviation(subjectName: string): (r: string)
    ensures |r| <= 4
    ensures r == [] <==> subjectName == []
    ensures Upper(subjectName) in Abbreviations ==> r == Abbreviations[Upper(subjectName)]
    ensures Upper(subjectName) !in Abbreviations ==>
              r == Upper(subjectName[..if |subjectName| < 4 then |subjectName| else 4])
  {
    var upper := Upper(subjectName);
    if upper in Abbreviations then Abbreviations[upper]
    else Upper(subjectName[..if |subjectName| < 4 then |subjectName| else 4])
  }

  /** The abbreviation ignores ASCII letter case. */
  lemma AbbreviationIgnoresCase(a: string, b: string)
    requires Upper(a) == Upper(b)
    ensures Abbreviation(a) == Abbreviation(b)
  {
    var n := if |a| < 4 then |a| else 4;
    UpperPrefix(a, n);
    UpperPrefix(b, n);
  }

  lemma AbbreviationExamples()
    ensures Abbreviation("ART") == "ART"
    ensures Abbreviation("english") == "ENG"
    ensures Abbreviation("Business Studies") == "BUSI"
  {
    assert Upper("ART") == "ART";
    assert Upper("english") == "ENGLISH";
    assert Upper("Business Studies") == "BUSINESS STUDIES";
    assert Upper("Busi") == "BUSI";
  }

  const PendingRemark := "Performance assessment pending"

  /** The remark printed for each letter grade. */
  const GradeRemarks: map<string, string> := map[
    "A" := "Excellent - Outstanding performance",
    "A-" := "Excellent - Very strong performance",
    "B+" := "Very Good - Strong performance",
    "B" := "Good - Above average performance",
    "B-" := "Good - Good performance",
    "C+" := "Average - Satisfactory performance",
    "C" := "Below Average - Needs improvement",
    "C-" := "Below Average - Requires attention",
    "D+" := "Weak - Significant improvement needed",
    "D" := "Weak - Much improvement required",
    "D-" := "Weak - Serious attention needed",
    "E" := "Poor - Immediate intervention required"
  ]

  /** getGradeRemarks: the remark of a letter, and the pending remark for any other text. */
  function Remark(grade: string): (r: string)
    ensures r == PendingRemark <==> grade !in GradeRemarks
    ensures grade in GradeRemarks ==> r == GradeRemarks[grade]
  {
    if grade in GradeRemarks then GradeRemarks[grade] else PendingRemark
  }

  /** The remark table is keyed by exactly the twelve printed letters. */
  lemma RemarkKeysAreLetters(text: string)
    ensures text in GradeRemarks <==> ParseGrade(text).Some?
  {
  }

  /** A remark other than the pending one is given exactly to the marks that carry a letter;
      the "-" of a missing score gets the pending remark. */
  lemma RemarkOfMark(m: Mark)
    ensures Remark(MarkText(m)) == PendingRemark <==> m == Dash
  {
    if m.Letter? {
      GradeTextRoundTrip(m.grade);
      RemarkKeysAreLetters(GradeText(m.grade));
    }
  }
}
