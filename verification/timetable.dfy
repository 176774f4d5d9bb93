/**
 The weekly timetable page (src/pages/Timetable.tsx): the grid lookup of the
 class in a (day, time) cell, the per-day lists with their count label, and
 the colour of a course, shared by the cells and the legend.
 */
module Timetable {
  import opened Optional
  import opened MockData
  import Seqs

  const days: seq<string> := ["Monday", "Tuesday", "Wednesday", "Thursday", "Friday"]

  const timeSlots: seq<string> :=
    ["08:00 - 10:00", "10:00 - 12:00", "12:00 - 14:00", "14:00 - 16:00", "16:00 - 18:00"]

  const courseColors: seq<string> := [
    "bg-primary/10 border-primary/20 text-primary",
    "bg-success/10 border-success/20 text-success",
    "bg-warning/10 border-warning/20 text-warning",
    "bg-accent/10 border-accent/20 text-accent",
    "bg-destructive/10 border-destructive/20 text-destructive",
    "bg-purple-500/10 border-purple-500/20 text-purple-500"
  ]

  function Abs(x: int): nat
  {
    if x < 0 then -x else x
  }

  /* JavaScript's `a % b`: the remainder of division truncated toward zero,
     which takes the sign of `a` (unlike Dafny's Euclidean `%`). */
  function JsRemainder(a: int, b: int): (r: int)
    requires b != 0
    ensures a >= 0 ==> 0 <= r < Abs(b)
    ensures a < 0 ==> 0 < r + Abs(b) && r <= 0
    ensures Abs(r) == Abs(a) % Abs(b)
    ensures a >= 0 && b > 0 ==> r == a % b
    ensures a == -1 && Abs(b) > 1 ==> r == -1
  {
    var m := Abs(b);
    if a >= 0 then
      a % m
    else
      var q := (-a) % m;
      assert a == -1 && m > 1 ==> q == 1;
      -q
  }

  /* `getClassForSlot(day, time)`: the first timetable entry in that cell. */
  function ClassForSlot(tt: seq<ClassSlot>, day: string, time: string): (r: Option<ClassSlot>)
    ensures r.Some? ==> r.value in tt && r.value.day == day && r.value.time == time
    ensures r.None? <==> forall i :: 0 <= i < |tt| ==> !(tt[i].day == day && tt[i].time == time)
    ensures r.Some? ==> exists i :: (0 <= i < |tt| && tt[i] == r.value &&
      forall j :: 0 <= j < i ==> !(tt[j].day == day && tt[j].time == time))
  {
    Seqs.Find(tt, (e: ClassSlot) => e.day == day && e.time == time)
  }

  /* No two entries share a cell. */
  predicate CellsDistinct(tt: seq<ClassSlot>)
  {
    forall i, j :: 0 <= i < j < |tt| ==> !(tt[i].day == tt[j].day && tt[i].time == tt[j].time)
  }

  /* When no two entries share a cell, each entry is exactly what its cell shows. */
  lemma SlotLookupUnambiguous(tt: seq<ClassSlot>, i: int)
    requires CellsDistinct(tt)
    requires 0 <= i < |tt|
    ensures ClassForSlot(tt, tt[i].day, tt[i].time) == Some(tt[i])
  {
    var day, time := tt[i].day, tt[i].time;
    Seqs.FindUnique(tt, (e: ClassSlot) => e.day == day && e.time == time, i);
  }

  predicate OnDay(day: string, e: ClassSlot)
  {
    e.day == day
  }

  function OnDayOf(day: string): ClassSlot -> bool
  {
    e => OnDay(day, e)
  }

  /* The mobile list for one day: `timetable.filter(item => item.day === day)`. */
  function DayClasses(tt: seq<ClassSlot>, day: string): (r: seq<ClassSlot>)
    ensures forall i :: 0 <= i < |r| ==> r[i] in tt && r[i].day == day
    ensures forall i :: 0 <= i < |tt| && tt[i].day == day ==> tt[i] in r
    ensures Seqs.IsSubsequence(r, tt)
    ensures |r| == Seqs.Count(tt, OnDayOf(day))
  {
    Seqs.FilterLengthIsCount(tt, OnDayOf(day));
    Seqs.Filter(tt, OnDayOf(day))
  }

  /* `class{n !== 1 ? 'es' : ''}`. */
  function ClassCountLabel(n: int): (word: string)
    ensures word == "class" <==> n == 1
    ensures word == "classes" <==> n != 1
  {
    "class" + (if n != 1 then "es" else "")
  }

  predicate HasCode(code: Code, c: RegisteredCourse)
  {
    c.code == code
  }

  /* `registeredCourses.findIndex(c => c.code === code) % courseColors.length`. */
  function ColorIndex(registered: seq<RegisteredCourse>, code: Code): (k: int)
    ensures -1 <= k < |courseColors|
    ensures k == -1 <==> forall i :: 0 <= i < |registered| ==> registered[i].code != code
  {
    JsRemainder(Seqs.FirstIndex(registered, c => HasCode(code, c)), |courseColors|)
  }

  /* `getCourseColor(code)`: `courseColors[index]`, which is `undefined` (no
     colour class) for the index -1 of an unknown course. */
  function CourseColor(registered: seq<RegisteredCourse>, code: Code): (c: Option<string>)
    ensures c.None? <==> forall i :: 0 <= i < |registered| ==> registered[i].code != code
    ensures forall i :: (0 <= i < |registered| && registered[i].code == code &&
      (forall j :: 0 <= j < i ==> registered[j].code != code)) ==> c == Some(courseColors[i % 6])
  {
    var k := ColorIndex(registered, code);
    if 0 <= k < |courseColors| then Some(courseColors[k]) else None
  }

  /* A registered course always gets a colour. */
  lemma RegisteredCourseColoured(registered: seq<RegisteredCourse>, j: int)
    requires 0 <= j < |registered|
    ensures CourseColor(registered, registered[j].code).Some?
  {
  }

  /* The course legend: the i-th registered course with `courseColors[i % 6]`. */
  function Legend(registered: seq<RegisteredCourse>): (r: seq<(Code, string)>)
    ensures |r| == |registered|
    ensures forall i :: 0 <= i < |r| ==> r[i].0 == registered[i].code
    ensures forall i :: 0 <= i < |r| ==> r[i].1 == courseColors[i % |courseColors|]
  {
    seq(|registered|, i requires 0 <= i < |registered| =>
      (registered[i].code, courseColors[JsRemainder(i, |courseColors|)]))
  }

  /* With distinct codes, every course's cells have the colour of its legend entry. */
  lemma LegendMatchesCells(registered: seq<RegisteredCourse>, i: int)
    requires Seqs.DistinctKeys(registered, (c: RegisteredCourse) => c.code)
    requires 0 <= i < |registered|
    ensures CourseColor(registered, registered[i].code) == Some(Legend(registered)[i].1)
  {
  }
}
