/**
 The academic-records page (src/pages/Results.tsx): semesters listed newest
 first in an accordion with at most one open card, per-semester and total
 credit sums, and the grade badge class. GPA and CGPA are floating point and
 are not part of this model.
 */
module Results {
  import opened Optional
  import opened MockData
  import Seqs

  /* `getGradeClass`. */
  function GradeClass(grade: string): (c: string)
    ensures grade in ["A", "B", "C", "D", "F"] ==> c == "grade-" + grade
    ensures grade !in ["A", "B", "C", "D", "F"] ==> c == "bg-muted text-muted-foreground"
  {
    match grade
    case "A" => "grade-A"
    case "B" => "grade-B"
    case "C" => "grade-C"
    case "D" => "grade-D"
    case "F" => "grade-F"
    case _ => "bg-muted text-muted-foreground"
  }

  /* The accordion key `${semester}-${session}`. */
  function SemesterKey(r: SemesterRecord): string
  {
    r.semester + "-" + r.session
  }

  /* Sessions of one fixed length make the key unambiguous: equal keys mean
     the same semester of the same session. */
  lemma KeyDeterminesSemester(a: SemesterRecord, b: SemesterRecord)
    requires |a.session| == |b.session|
    requires SemesterKey(a) == SemesterKey(b)
    ensures a.semester == b.semester && a.session == b.session
  {
    var k := SemesterKey(a);
    assert |a.semester| == |b.semester|;
    assert a.semester == k[..|a.semester|] == b.semester;
    assert a.session == k[|a.semester| + 1..] == b.session;
  }

  predicate IsExpanded(expanded: Option<string>, key: string)
  {
    expanded == Some(key)
  }

  /* `toggleSemester(key)`: closes the open card, or opens `key` and with it
     closes whichever card was open. */
  function ToggleSemester(expanded: Option<string>, key: string): (e: Option<string>)
    ensures IsExpanded(e, key) <==> !IsExpanded(expanded, key)
    ensures forall other :: other != key ==> !IsExpanded(e, other)
  {
    if expanded == Some(key) then None else Some(key)
  }

  /* Toggling the same card twice restores the accordion when that card, or
     no card, was open before. */
  lemma ToggleTwice(expanded: Option<string>, key: string)
    requires expanded == None || expanded == Some(key)
    ensures ToggleSemester(ToggleSemester(expanded, key), key) == expanded
  {
  }

  /* With distinct keys, at most one semester card is open. */
  lemma AtMostOneOpen(records: seq<SemesterRecord>, expanded: Option<string>, i: int, j: int)
    requires Seqs.DistinctKeys(records, SemesterKey)
    requires 0 <= i < |records| && 0 <= j < |records|
    requires IsExpanded(expanded, SemesterKey(records[i])) && IsExpanded(expanded, SemesterKey(records[j]))
    ensures i == j
  {
  }

  /* Semesters as listed: `academicRecords.slice().reverse()`. */
  function DisplayOrder(records: seq<SemesterRecord>): (r: seq<SemesterRecord>)
    ensures |r| == |records|
    ensures forall i :: 0 <= i < |r| ==> r[i] == records[|records| - 1 - i]
  {
    Seqs.Reverse(records)
  }

  /* The initially open card: the last record, which is the first one listed. */
  function InitialExpanded(records: seq<SemesterRecord>): (e: Option<string>)
    requires |records| > 0
    ensures IsExpanded(e, SemesterKey(records[|records| - 1]))
    ensures IsExpanded(e, SemesterKey(DisplayOrder(records)[0]))
  {
    Some(SemesterKey(records[|records| - 1]))
  }

  function CourseCredits(c: GradedCourse): int
  {
    c.credits
  }

  /* The "Total Credits" of one semester card. */
  function SemesterCredits(r: SemesterRecord): int
  {
    Seqs.SumOf(r.courses, CourseCredits)
  }

  /* `totalCredits`: a sum of per-semester sums. */
  function TotalCredits(records: seq<SemesterRecord>): int
  {
    Seqs.SumOf(records, SemesterCredits)
  }

  /* Every graded course of every semester, in record order. */
  function AllCourses(records: seq<SemesterRecord>): seq<GradedCourse>
  {
    if |records| == 0 then [] else records[0].courses + AllCourses(records[1..])
  }

  /* The total equals the credit sum over all graded courses taken together. */
  lemma {:induction false} TotalIsSumOfAllCourses(records: seq<SemesterRecord>)
    ensures TotalCredits(records) == Seqs.SumOf(AllCourses(records), CourseCredits)
    decreases |records|
  {
    if |records| > 0 {
      TotalIsSumOfAllCourses(records[1..]);
      Seqs.SumOfAppend(records[0].courses, AllCourses(records[1..]), CourseCredits);
    }
  }

  /* The per-semester figures shown, newest first, add up to the total. */
  lemma {:induction false} TotalIsSumOfShownSemesters(records: seq<SemesterRecord>)
    ensures Seqs.SumOf(DisplayOrder(records), SemesterCredits) == TotalCredits(records)
    decreases |records|
  {
    if |records| > 0 {
      TotalIsSumOfShownSemesters(records[1..]);
      assert Seqs.Reverse(records) == Seqs.Reverse(records[1..]) + [records[0]];
      Seqs.SumOfAppend(Seqs.Reverse(records[1..]), [records[0]], SemesterCredits);
      assert Seqs.SumOf([records[0]], SemesterCredits) == SemesterCredits(records[0]);
    }
  }
}
