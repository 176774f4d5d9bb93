/**
 The dashboard (src/pages/Dashboard.tsx): today's classes, the unread
 announcements badge, the registered-credit sum, the shortened lists and the
 category style of an announcement. "Today" is fixed to Monday in the source.
 */
module Dashboard {
  import opened Optional
  import opened MockData
  import Seqs

  predicate OnMonday(e: ClassSlot)
  {
    e.day == "Monday"
  }

  /* `timetable.filter(item => item.day === 'Monday').slice(0, 3)`. */
  function TodayClasses(tt: seq<ClassSlot>): (r: seq<ClassSlot>)
    ensures |r| <= 3
    ensures forall i :: 0 <= i < |r| ==> r[i].day == "Monday"
    ensures r <= Seqs.Filter(tt, OnMonday)
    ensures |Seqs.Filter(tt, OnMonday)| <= 3 ==> r == Seqs.Filter(tt, OnMonday)
    ensures |r| == if |Seqs.Filter(tt, OnMonday)| < 3 then |Seqs.Filter(tt, OnMonday)| else 3
  {
    Seqs.Take(Seqs.Filter(tt, OnMonday), 3)
  }

  predicate Unread(a: Announcement)
  {
    !a.isRead
  }

  /* `announcements.filter(a => !a.isRead)`. */
  function UnreadAnnouncements(list: seq<Announcement>): (r: seq<Announcement>)
    ensures forall i :: 0 <= i < |r| ==> r[i] in list && !r[i].isRead
    ensures forall i :: 0 <= i < |list| && !list[i].isRead ==> list[i] in r
    ensures Seqs.IsSubsequence(r, list)
    ensures |r| == Seqs.Count(list, Unread)
  {
    Seqs.FilterLengthIsCount(list, Unread);
    Seqs.Filter(list, Unread)
  }

  /* The "{n} new" badge, shown only when some announcement is unread. */
  function NewBadge(list: seq<Announcement>): (b: Option<nat>)
    ensures b.Some? <==> exists i :: 0 <= i < |list| && !list[i].isRead
    ensures b.Some? ==> b.value == Seqs.Count(list, Unread)
  {
    var unread := UnreadAnnouncements(list);
    Seqs.FilterLengthIsCount(list, Unread);
    if |unread| > 0 then Some(|unread|) else None
  }

  function RegisteredCourseCredits(c: RegisteredCourse): int
  {
    c.credits
  }

  /* The "{n} credit units" label of the registered-courses card. */
  function RegisteredCreditSum(rs: seq<RegisteredCourse>): int
  {
    Seqs.SumOf(rs, RegisteredCourseCredits)
  }

  /* The label is the sum of the previewed courses plus the rest. */
  lemma CreditSumSplits(rs: seq<RegisteredCourse>)
    requires |rs| >= 4
    ensures RegisteredCreditSum(rs) == RegisteredCreditSum(Preview(rs)) + RegisteredCreditSum(rs[4..])
  {
    assert rs == rs[..4] + rs[4..];
    Seqs.SumOfAppend(rs[..4], rs[4..], RegisteredCourseCredits);
  }

  /* The four-entry preview of a list, `slice(0, 4)`, used for both the
     announcements and the registered courses. */
  function Preview<T>(s: seq<T>): (r: seq<T>)
    ensures |r| <= 4 && r <= s
    ensures |s| <= 4 ==> r == s
    ensures |s| >= 4 ==> |r| == 4
  {
    Seqs.Take(s, 4)
  }

  /* `course.code.slice(0, 3)`: the badge holds the code's first three characters. */
  function CodeBadge(code: Code): (b: string)
    ensures b <= code
    ensures |b| == if |code| < 3 then |code| else 3
  {
    Seqs.Take(code, 3)
  }

  datatype CategoryIcon = AlertIcon | BookIcon | FileIcon | CalendarIcon | BellIcon

  datatype CategoryStyle = CategoryStyle(icon: CategoryIcon, classes: string)

  const fallbackStyle := CategoryStyle(BellIcon, "bg-muted text-muted-foreground")

  const knownCategories: seq<string> := ["Examination", "Academic", "Finance", "Events"]

  /* The icon and colour chain of an announcement's category. */
  function StyleOf(category: string): (s: CategoryStyle)
    ensures s == fallbackStyle <==> category !in knownCategories
    ensures category in knownCategories ==> s.icon != BellIcon
  {
    if category == "Examination" then CategoryStyle(AlertIcon, "bg-destructive/10 text-destructive")
    else if category == "Academic" then CategoryStyle(BookIcon, "bg-primary/10 text-primary")
    else if category == "Finance" then CategoryStyle(FileIcon, "bg-warning/10 text-warning")
    else if category == "Events" then CategoryStyle(CalendarIcon, "bg-success/10 text-success")
    else fallbackStyle
  }

  /* Each known category gets its own icon. */
  lemma CategoryIcons()
    ensures StyleOf("Examination").icon == AlertIcon
    ensures StyleOf("Academic").icon == BookIcon
    ensures StyleOf("Finance").icon == FileIcon
    ensures StyleOf("Events").icon == CalendarIcon
  {
  }

  /* Distinct known categories get distinct styles. */
  lemma KnownStylesDistinct(c1: string, c2: string)
    requires c1 in knownCategories && c2 in knownCategories && c1 != c2
    ensures StyleOf(c1) != StyleOf(c2)
  {
  }
}
