/**
 Consistency facts about the fixture data (src/data/mockData.ts) that the
 pages rely on: unique keys, registered courses that match the catalog,
 timetable cells that all resolve, integer sums that agree, and the
 registration scenarios the credit ceiling allows and refuses.
 */
module FixtureFacts {
  import opened Optional
  import opened MockData
  import opened Registration
  import Seqs
  import Notifications
  import Results
  import Timetable
  import Dashboard

  // ---------------------------------------------------------------------------
  // The course catalog and the registered list

  lemma CatalogWellFormed()
    ensures WellFormedCatalog(availableCourses)
  {
  }

  /* Each registered course is the catalog course at the same position. */
  lemma RegisteredMatchCatalog()
    ensures |registeredCourses| <= |availableCourses|
    ensures forall i :: 0 <= i < |registeredCourses| ==>
      var r, c := registeredCourses[i], availableCourses[i];
      r.code == c.code && r.title == c.title && r.credits == c.credits && r.lecturer == c.lecturer
  {
  }

  lemma RegisteredCodesMatch()
    ensures |registeredCourses| <= |availableCourses|
    ensures forall i :: 0 <= i < |registeredCourses| ==> registeredCourses[i].code == availableCourses[i].code
  {
  }

  /* The page starts holding exactly the first six catalog courses. */
  lemma InitialHeld()
    ensures forall k :: 0 <= k < |availableCourses| ==>
      (availableCourses[k].code in Held(Initial()) <==> k < |registeredCourses|)
  {
    CatalogWellFormed();
    RegisteredCodesMatch();
    PrefixHeld(availableCourses, Initial());
  }

  /* The initial lists are duplicate-free and disjoint. */
  lemma InitialDisjoint()
    ensures Disjoint(Initial())
  {
    CatalogWellFormed();
    RegisteredCodesMatch();
  }

  /* Holding exactly the first six catalog courses is worth 18 credits. */
  lemma FirstSixCredits(h: set<Code>)
    requires forall k :: 0 <= k < |availableCourses| ==> (availableCourses[k].code in h <==> k < 6)
    ensures CreditsOf(availableCourses, h) == 18
  {
    var c := availableCourses;
    assert CreditsOf(c[9..], h) == 0 by { assert c[9].code !in h; }
    assert CreditsOf(c[8..], h) == 0 by { assert c[8].code !in h; assert c[8..][1..] == c[9..]; }
    assert CreditsOf(c[7..], h) == 0 by { assert c[7].code !in h; assert c[7..][1..] == c[8..]; }
    assert CreditsOf(c[6..], h) == 0 by { assert c[6].code !in h; assert c[6..][1..] == c[7..]; }
    assert CreditsOf(c[5..], h) == 3 by { assert c[5].code in h; assert c[5..][1..] == c[6..]; }
    assert CreditsOf(c[4..], h) == 6 by { assert c[4].code in h; assert c[4..][1..] == c[5..]; }
    assert CreditsOf(c[3..], h) == 9 by { assert c[3].code in h; assert c[3..][1..] == c[4..]; }
    assert CreditsOf(c[2..], h) == 12 by { assert c[2].code in h; assert c[2..][1..] == c[3..]; }
    assert CreditsOf(c[1..], h) == 15 by { assert c[1].code in h; assert c[1..][1..] == c[2..]; }
    assert c[0].code in h;
  }

  /* The registration page opens with 18 credits. */
  lemma InitialCredits()
    ensures CurrentCredits(availableCourses, Initial()) == 18
  {
    InitialHeld();
    FirstSixCredits(Held(Initial()));
  }

  /* The dashboard's credit label shows the same 18 credits. */
  lemma DashboardCredits()
    ensures Dashboard.RegisteredCreditSum(registeredCourses) == 18
  {
  }

  /* The whole catalog is worth 26 credits, more than the ceiling of 24. */
  lemma CatalogExceedsCeiling()
    ensures CatalogTotal(availableCourses) == 26
    ensures CatalogTotal(availableCourses) > maxCredits
  {
  }

  /* In a ten-course catalog whose last four courses carry 2 credits, a state
     holding exactly the first six at 18 credits takes the next three and then
     refuses the tenth. */
  lemma ElectivesFillCeiling(c: seq<Course>, s0: RegState)
    requires WellFormedCatalog(c) && |c| == 10
    requires forall k :: 0 <= k < |c| ==> (c[k].code in Held(s0) <==> k < 6)
    requires CurrentCredits(c, s0) == 18
    requires c[6].credits == 2 && c[7].credits == 2 && c[8].credits == 2 && c[9].credits == 2
    ensures
      var r1 := AddToCart(c, s0, c[6].code);
      var r2 := AddToCart(c, r1.state, c[7].code);
      var r3 := AddToCart(c, r2.state, c[8].code);
      var r4 := AddToCart(c, r3.state, c[9].code);
      && r1.outcome == Added && CurrentCredits(c, r1.state) == 20
      && r2.outcome == Added && CurrentCredits(c, r2.state) == 22
      && r3.outcome == Added && CurrentCredits(c, r3.state) == maxCredits
      && r3.state.cart == s0.cart + [c[6].code, c[7].code, c[8].code]
      && r4.outcome == LimitExceeded && r4.state == r3.state
  {
    AddFreshCourse(c, s0, 6);
    var s1 := AddToCart(c, s0, c[6].code).state;
    AddFreshCourse(c, s1, 7);
    var s2 := AddToCart(c, s1, c[7].code).state;
    AddFreshCourse(c, s2, 8);
    FindCourseAt(c, 9);
  }

  /* From the initial state, adding the three 2-credit electives fills the
     ceiling exactly, after which GST301 is refused. */
  lemma FillToCeiling()
    ensures
      var r1 := AddToCart(availableCourses, Initial(), "CSC313");
      var r2 := AddToCart(availableCourses, r1.state, "CSC315");
      var r3 := AddToCart(availableCourses, r2.state, "CSC317");
      var r4 := AddToCart(availableCourses, r3.state, "GST301");
      && r1.outcome == Added && CurrentCredits(availableCourses, r1.state) == 20
      && r2.outcome == Added && CurrentCredits(availableCourses, r2.state) == 22
      && r3.outcome == Added && CurrentCredits(availableCourses, r3.state) == maxCredits
      && r3.state.cart == ["CSC313", "CSC315", "CSC317"]
      && r4.outcome == LimitExceeded && r4.state == r3.state
  {
    CatalogWellFormed();
    InitialCredits();
    InitialHeld();
    var c := availableCourses;
    assert c[6].code == "CSC313" && c[7].code == "CSC315" && c[8].code == "CSC317" && c[9].code == "GST301";
    ElectivesFillCeiling(availableCourses, Initial());
  }

  /* Called directly with the registered CSC301, `addToCart` accepts it: the
     code lands in the cart a second time while the total stays at 18. */
  lemma AddRegisteredCodeAccepted()
    ensures
      var r := AddToCart(availableCourses, Initial(), "CSC301");
      && r.outcome == Added && r.state.cart == ["CSC301"]
      && "CSC301" in r.state.registered
      && CurrentCredits(availableCourses, r.state) == 18
  {
    CatalogWellFormed();
    InitialCredits();
    InitialHeld();
    RegisteredCodesMatch();
    var c := availableCourses;
    assert c[0].code == "CSC301";
    assert Initial().registered[0] == "CSC301";
    AddHeldCourse(availableCourses, Initial(), 0);
  }

  /* Whatever the student clicks, starting from the fixtures the lists stay
     duplicate-free and disjoint, the total stays within 24 credits, and some
     catalog course is always left out. */
  lemma ReachableStates(actions: seq<Action>)
    requires GatedRun(availableCourses, Initial(), actions)
    ensures Disjoint(Run(availableCourses, Initial(), actions))
    ensures WithinCeiling(availableCourses, Run(availableCourses, Initial(), actions))
    ensures exists i :: (0 <= i < |availableCourses| &&
      availableCourses[i].code !in Held(Run(availableCourses, Initial(), actions)))
  {
    CatalogWellFormed();
    InitialDisjoint();
    InitialCredits();
    GatedRunKeepsDisjoint(availableCourses, Initial(), actions);
    RunKeepsCeiling(availableCourses, Initial(), actions);
    CatalogExceedsCeiling();
    CeilingLeavesCourseOut(availableCourses, Run(availableCourses, Initial(), actions));
  }

  // ---------------------------------------------------------------------------
  // Notifications and announcements

  /* Notification ids are distinct, so marking one read touches that entry alone. */
  lemma NotificationIdsDistinct()
    ensures Seqs.DistinctKeys(notifications, Notifications.NotificationId)
  {
  }

  function Digit(ch: char): int
  {
    ch as int - '0' as int
  }

  /* The calendar day of an ISO 8601 date `YYYY-MM-DD...` as the number YYYYMMDD. */
  function DayNumber(date: string): int
    requires |date| >= 10
  {
    Digit(date[0]) * 10000000 + Digit(date[1]) * 1000000 + Digit(date[2]) * 100000 + Digit(date[3]) * 10000
    + Digit(date[5]) * 1000 + Digit(date[6]) * 100
    + Digit(date[8]) * 10 + Digit(date[9])
  }

  /* Every date names a calendar day, each strictly before the previous one. */
  predicate NewestFirst(dates: seq<string>)
  {
    && (forall i :: 0 <= i < |dates| ==> |dates[i]| >= 10)
    && (forall i :: 0 <= i < |dates| - 1 ==> DayNumber(dates[i]) > DayNumber(dates[i + 1]))
  }

  /* Both feeds are listed newest first. */
  lemma FeedsNewestFirst()
    ensures NewestFirst(seq(|notifications|, i requires 0 <= i < |notifications| => notifications[i].date))
    ensures NewestFirst(seq(|announcements|, i requires 0 <= i < |announcements| => announcements[i].date))
  {
  }

  /* Two announcements are unread, so the dashboard shows the badge "2 new". */
  lemma DashboardBadge()
    ensures Dashboard.NewBadge(announcements) == Some(2)
  {
    assert !announcements[0].isRead;
    assert Seqs.Count(announcements, Dashboard.Unread) == 2;
  }

  // ---------------------------------------------------------------------------
  // The timetable

  /* No two timetable entries share a cell, so every entry is what its cell shows. */
  lemma TimetableCellsDistinct()
    ensures Timetable.CellsDistinct(timetable)
  {
  }

  /* Every entry sits on a weekday row and a time-slot column of the grid. */
  lemma TimetableInGrid()
    ensures forall i :: 0 <= i < |timetable| ==> timetable[i].day in Timetable.days
    ensures forall i :: 0 <= i < |timetable| ==> timetable[i].time in Timetable.timeSlots
  {
  }

  /* Registered codes are distinct keys. */
  lemma RegisteredCodesDistinct()
    ensures Seqs.DistinctKeys(registeredCourses, (c: RegisteredCourse) => c.code)
  {
    CatalogWellFormed();
    RegisteredCodesMatch();
  }

  /* The timetable runs through the registered courses in order, twice, so
     every entry is a registered course. */
  lemma TimetableFollowsRegistered()
    ensures |registeredCourses| == 6
    ensures forall i :: 0 <= i < |timetable| ==> timetable[i].course == registeredCourses[i % 6].code
  {
  }

  /* Every timetable cell is coloured. */
  lemma EveryCellColoured()
    ensures forall i :: 0 <= i < |timetable| ==>
      Timetable.CourseColor(registeredCourses, timetable[i].course).Some?
  {
    TimetableFollowsRegistered();
    forall i | 0 <= i < |timetable|
      ensures Timetable.CourseColor(registeredCourses, timetable[i].course).Some?
    {
      Timetable.RegisteredCourseColoured(registeredCourses, i % 6);
    }
  }

  /* Each course's cells and its legend entry show the same colour. */
  lemma LegendAgreesWithCells()
    ensures forall i :: 0 <= i < |registeredCourses| ==>
      Timetable.CourseColor(registeredCourses, registeredCourses[i].code)
        == Some(Timetable.Legend(registeredCourses)[i].1)
  {
    RegisteredCodesDistinct();
    forall i | 0 <= i < |registeredCourses|
      ensures Timetable.CourseColor(registeredCourses, registeredCourses[i].code)
        == Some(Timetable.Legend(registeredCourses)[i].1)
    {
      Timetable.LegendMatchesCells(registeredCourses, i);
    }
  }

  // ---------------------------------------------------------------------------
  // Fees, results and the dashboard figures

  function FeeAmount(f: FeeItem): int
  {
    f.amount
  }

  function PaymentAmount(p: Payment): int
  {
    p.amount
  }

  /* The fee breakdown adds up to the total, the payments to the amount paid,
     and the balance is what remains. */
  lemma FeesAddUp()
    ensures Seqs.SumOf(feesData.breakdown, FeeAmount) == feesData.totalFees
    ensures Seqs.SumOf(feesData.payments, PaymentAmount) == feesData.amountPaid
    ensures feesData.balance == feesData.totalFees - feesData.amountPaid
  {
  }

  /* The accordion keys are distinct, so at most one card is ever open. */
  lemma SemesterKeysDistinct()
    ensures Seqs.DistinctKeys(academicRecords, Results.SemesterKey)
  {
    var rs := academicRecords;
    forall i, j | 0 <= i < j < |rs|
      ensures Results.SemesterKey(rs[i]) != Results.SemesterKey(rs[j])
    {
      assert |rs[i].session| == |rs[j].session| == 9;
      assert rs[i].semester != rs[j].semester || rs[i].session != rs[j].session;
      if Results.SemesterKey(rs[i]) == Results.SemesterKey(rs[j]) {
        Results.KeyDeterminesSemester(rs[i], rs[j]);
      }
    }
  }

  /* The five semesters carry 75 credits in all. */
  lemma AcademicTotal()
    ensures Results.TotalCredits(academicRecords) == 75
  {
  }

  /* The dashboard's course count is the number of registered courses. */
  lemma DashboardCourseCount()
    ensures dashboardStats.totalCourses == |registeredCourses|
  {
  }
}
