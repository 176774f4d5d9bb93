# Student portal: verified model of the page logic

The portal is a React front end for a university student: a login screen,
a dashboard, course registration, a timetable, academic results,
notifications and fees. All data comes from fixed fixtures
(`src/data/mockData.ts`). There is no back end. The behaviour worth
verifying sits inside the page components, as small state reducers and pure
list functions. This project restates them as pure Dafny functions over
`seq`-based records and proves what the pages rely on.

Modules follow the source files:

- `Optional` and `Seqs` (`seqs.dfy`): the optional value, and the JavaScript
  array methods the pages call (`filter`, `find`, `findIndex`, `slice`,
  `reduce` for sums, `reverse`). Each is stated once; the sum's append law is the lemma `Seqs.SumOfAppend`.
- `MockData` (`mock_data.dfy`): the record shapes and the fixture constants.
- `Session` (`session.dfy`): the authentication context. It covers login,
  logout, and the invariant that a student profile is present exactly when
  the user is authenticated.
- `Routing` (`routing.dfy`): the route table and its two guards, as one
  decision function from (path, authenticated) to render-or-redirect.
- `Registration` (`registration.dfy`): the course-registration page. It
  covers the credit total, add, remove, drop, confirm, the button offered
  per course, the summary panel, and the 24-credit ceiling.
- `Notifications` (`notifications.dfy`): the filter, the unread count,
  mark-as-read and mark-all-as-read, the per-type style fallback, and the
  relative-date label.
- `Results` (`results.dfy`): the grade badge, the single-open accordion,
  newest-first ordering and the credit sums.
- `Timetable` (`timetable.dfy`): the cell lookup, the per-day lists, and the
  course colours. JavaScript's truncating `%` is modelled explicitly.
- `Dashboard` (`dashboard.dfy`): today's classes, the unread badge, the list
  slices, the credit label and the category style.
- `FixtureFacts` (`fixture_facts.dfy`): consistency of the fixture constants,
  plus registration scenarios run on them.

Behaviours of the code worth knowing:

- `addToCart` has no duplicate check. A code already registered or in the
  cart is appended again when its credits fit. Only the page's button choice
  (Drop / Remove / Add) prevents this, so disjointness of the two lists is
  proved for runs of offered actions (`Registration.GatedRunKeepsDisjoint`).
- Confirming appends the cart to the registered list (`[...registered,
  ...cart]`), not a set union.
- Login accepts any non-empty matric number and password, and always loads
  the one fixture profile, whatever matric number was typed.
- An unknown code passed to `addToCart` takes the "Credit limit exceeded"
  branch.

## Model

| member | source | states |
|---|---|---|
| Session.Login | src/contexts/AuthContext.tsx:34-42 | login succeeds exactly when both fields are non-empty; on success the user is authenticated with the fixture profile, otherwise nothing changes |
| Session.Logout | src/contexts/AuthContext.tsx:44-47 | after logout the user is unauthenticated with no profile, a consistent state |
| Session.LogoutIdempotent | src/contexts/AuthContext.tsx:44-47 | logging out twice is the same as logging out once |
| Session.LoginIgnoresMatricNumber | src/contexts/AuthContext.tsx:34-42 | any two accepted matric numbers yield the same state, with the fixture's matric number 2023/12914 |
| Session.ReachableConsistent | src/contexts/AuthContext.tsx:30-47 | from the initial state, every sequence of logins and logouts keeps "authenticated iff a profile is present", and any profile is the fixture one |
| Session.RunPreserves | src/contexts/AuthContext.tsx:34-47 | the consistency invariant is preserved by every sequence of logins and logouts |
| Session.LoginScenario | src/contexts/AuthContext.tsx:34-47 | an empty matric number is refused; a filled form logs in; logging out returns to the initial state |
| Routing.Lookup | src/App.tsx:40-105 | `/` is the public Login route; each of the seven protected paths is a protected route to its own page (`/results` to Results, `/fees` to Fees, and so on); every other path has no entry |
| Routing.Guarded | src/App.tsx:20-38 | a guard redirects exactly when protected-and-anonymous or public-and-authenticated, to `/` or `/dashboard` respectively; otherwise it renders the page |
| Routing.Resolve | src/App.tsx:40-107 | the not-found page is rendered exactly for paths outside the table |
| Routing.ProtectedPathsGuarded | src/App.tsx:20-105 | each protected path renders its own page, neither Login nor not-found, when authenticated, and redirects to `/` otherwise |
| Routing.RootGuarded | src/App.tsx:30-49 | on `/` an authenticated user is sent to `/dashboard` and an anonymous one sees Login |
| Routing.UnknownPathNotFound | src/App.tsx:106 | any path outside the table renders the not-found page, whether authenticated or not |
| Routing.NoRedirectLoop | src/App.tsx:20-49 | the target of any redirect renders a page other than not-found for the same user, without redirecting again |
| Registration.CodesOf | src/pages/CourseRegistration.tsx:11-13 | the registered courses' codes, one per course, in order (`map(c => c.code)`) |
| Registration.Initial | src/pages/CourseRegistration.tsx:11-14 | the page starts with the fixture's registered codes, in order, and an empty cart |
| Registration.CreditsOf | src/pages/CourseRegistration.tsx:18-20 | the credits of the catalog courses whose code is held, summed along the catalog, so each catalog course counts at most once |
| Registration.CurrentCredits | src/pages/CourseRegistration.tsx:18-20 | `currentCredits`: the credits of the catalog courses whose code is in the registered list or the cart |
| Registration.RegisteredCredits | src/pages/CourseRegistration.tsx:269-271 | the "Total Registered" figure: the credits of the catalog courses whose code is in the registered list |
| Registration.FindCourse | src/pages/CourseRegistration.tsx:26 | the lookup returns the first catalog course with that code, and none exactly when no catalog entry has it |
| Registration.FindCourseAt | src/pages/CourseRegistration.tsx:26 | in a catalog with unique codes, looking up an entry's code finds that entry |
| Registration.AddToCart | src/pages/CourseRegistration.tsx:25-40 | the add succeeds exactly when the code is in the catalog and the total plus its credits is at most 24; success appends the code to the cart, failure changes nothing |
| Registration.RemoveFromCart | src/pages/CourseRegistration.tsx:42-48 | the code leaves the cart; every other cart entry stays, in order and with its number of copies; the registered list is untouched; an absent code changes nothing |
| Registration.DropCourse | src/pages/CourseRegistration.tsx:50-56 | the code leaves the registered list; every other entry stays, in order and with its number of copies; the cart is untouched; an absent code changes nothing |
| Registration.Confirm | src/pages/CourseRegistration.tsx:58-65 | the new registered list is the old one followed by the cart, and the cart is empty |
| Registration.RemoveIdempotent | src/pages/CourseRegistration.tsx:42-48 | removing the same code twice equals removing it once |
| Registration.DropIdempotent | src/pages/CourseRegistration.tsx:50-56 | dropping the same code twice equals dropping it once |
| Registration.ConfirmTwice | src/pages/CourseRegistration.tsx:58-65 | confirming twice equals confirming once |
| Registration.CreditsNonNegative | src/pages/CourseRegistration.tsx:18-20 | with non-negative course credits, the credit total is never negative |
| Registration.CreditsMonotone | src/pages/CourseRegistration.tsx:18-20 | holding more codes never lowers the total |
| Registration.CreditsAgree | src/pages/CourseRegistration.tsx:18-20 | the total depends only on which catalog codes are held |
| Registration.CreditsInsert | src/pages/CourseRegistration.tsx:18-20 | holding one more catalog course raises the total by exactly its credits |
| Registration.CreditsAtMostCatalog | src/pages/CourseRegistration.tsx:18-20 | the total never exceeds the credits of the whole catalog, however often a code is repeated |
| Registration.CreditsAllHeld | src/pages/CourseRegistration.tsx:18-20 | holding every catalog code reaches the whole catalog's credits |
| Registration.PrefixHeld | src/pages/CourseRegistration.tsx:11-20 | when the registered list holds the codes of the catalog's first entries and the cart is empty, a catalog course is held exactly when it is one of them |
| Registration.DuplicateNotCounted | src/pages/CourseRegistration.tsx:18-20 | appending a code already held to either list leaves the total unchanged |
| Registration.AddCredits | src/pages/CourseRegistration.tsx:25-28 | a successful add raises the total by the course's credits if the code was new, and leaves it unchanged if the code was already held |
| Registration.AddFreshCourse | src/pages/CourseRegistration.tsx:25-28 | adding a catalog course held nowhere, with room under the ceiling, succeeds and adds its credits |
| Registration.AddHeldCourse | src/pages/CourseRegistration.tsx:25-28 | adding a course already held, with room under the ceiling, succeeds: the code is appended a second time and the total stays the same |
| Registration.ConfirmKeepsCredits | src/pages/CourseRegistration.tsx:58-60 | confirming keeps the set of held codes and the credit total |
| Registration.RegisteredAtMostCurrent | src/pages/CourseRegistration.tsx:266-271 | the "Total Registered" figure never exceeds the page's credit total |
| Registration.CeilingLeavesCourseOut | src/pages/CourseRegistration.tsx:17-27 | when the catalog's credits exceed 24, every state within the ceiling leaves some catalog course out |
| Registration.StepKeepsCeiling | src/pages/CourseRegistration.tsx:25-65 | in a catalog with unique codes and positive credits, no add, remove, drop or confirm lifts the total above 24 |
| Registration.RunKeepsCeiling | src/pages/CourseRegistration.tsx:25-65 | every sequence of actions starting within the ceiling stays within it |
| Registration.ButtonFor | src/pages/CourseRegistration.tsx:145-172 | Drop exactly for a registered code, Remove exactly for a code only in the cart, Add exactly for a code in neither list |
| Registration.Press | src/pages/CourseRegistration.tsx:145-172 | a click on a course's button drops a registered code, removes a code in the cart, and adds a code in neither list |
| Registration.PressIsGated | src/pages/CourseRegistration.tsx:145-172 | every button press acts on its own code and never adds a code already held |
| Registration.StepKeepsDisjoint | src/pages/CourseRegistration.tsx:145-172 | an offered action keeps both lists duplicate-free and disjoint |
| Registration.GatedRunKeepsDisjoint | src/pages/CourseRegistration.tsx:145-172 | any run of offered actions keeps both lists duplicate-free and disjoint |
| Registration.SummaryOf | src/pages/CourseRegistration.tsx:91-97 | the header total is the page's credit total and the registered figure is the registered list's credits, between 0 and that total; the cart badge shows the cart size and only for a non-empty cart; the warning shows above 20 credits and the red total above 24 |
| Registration.SummaryWithinCeiling | src/pages/CourseRegistration.tsx:278 | within the ceiling the total is never red, and the workload warning shows exactly when the page's total is 21 to 24 credits |
| Notifications.Filtered | src/pages/Notifications.tsx:30-34 | the list shown holds exactly the entries the filter admits, in order, as many as the filter admits; "all" shows the whole list |
| Notifications.UnreadCount | src/pages/Notifications.tsx:46 | the badge count is at most the list size, and zero exactly when every entry is read |
| Notifications.UnreadCountIsUnreadFilter | src/pages/Notifications.tsx:46 | the badge count equals the length of the "unread" view |
| Notifications.MarkAsRead | src/pages/Notifications.tsx:36-40 | an entry is read afterwards exactly when it was read before or has the id; nothing else in any entry changes |
| Notifications.MarkAllAsRead | src/pages/Notifications.tsx:42-44 | every entry is read afterwards and nothing else changes |
| Notifications.MarkAsReadOnlyTarget | src/pages/Notifications.tsx:36-40 | with distinct ids, marking one entry changes that entry alone |
| Notifications.MarkAllClearsUnread | src/pages/Notifications.tsx:42-46 | after mark-all the badge is zero and the "unread" view is empty |
| Notifications.MarkAsReadIdempotent | src/pages/Notifications.tsx:36-40 | marking the same id twice equals marking it once |
| Notifications.MarkUnknownIdNoOp | src/pages/Notifications.tsx:36-40 | marking an id no entry has changes nothing |
| Notifications.MarkAsReadCommutes | src/pages/Notifications.tsx:36-40 | marking two ids in either order gives the same list |
| Notifications.MarkAsReadLowersCount | src/pages/Notifications.tsx:36-46 | marking an entry read never raises the badge count |
| Notifications.RunReadMonotone | src/pages/Notifications.tsx:26-44 | no sequence of filter changes and mark actions turns a read entry unread, or changes anything but read flags |
| Notifications.TypeIcons | src/pages/Notifications.tsx:17-24 | each of the six style-table keys gets its own icon: alert for exams, book for academic, clock for deadlines, card for finance, calendar for events, bell for general |
| Notifications.StyleFor | src/pages/Notifications.tsx:131 | a type outside the style table falls back to the "general" style, and only "general" or an unknown type gets it |
| Notifications.GeneralOnlyUnderAllOrUnread | src/pages/Notifications.tsx:67-75 | under any type button of the filter bar, no listed entry has the "general" style |
| Notifications.FormatDate | src/pages/Notifications.tsx:48-65 | the label is minutes below one hour, hours below one day, "Yesterday" for the second day, days up to a week or for a future date, and the calendar date otherwise, each count being the floor of the elapsed time |
| Notifications.DaysAgoRange | src/pages/Notifications.tsx:52-63 | a past "days ago" label counts 2 to 6 days; a future date gives a negative day count |
| Notifications.MarkOneScenario | src/pages/Notifications.tsx:30-46 | in three unread entries, marking id 2 leaves ids 1 and 3 under "unread" and a badge of 2 |
| Results.GradeClass | src/pages/Results.tsx:8-17 | grades A to F get their own badge class; any other grade gets the muted class |
| Results.SemesterKey | src/pages/Results.tsx:100 | the accordion key `semester-session`; with sessions of equal length it determines the semester (see Results.KeyDeterminesSemester) |
| Results.SemesterCredits | src/pages/Results.tsx:217-218 | a semester card's "Total Credits": the sum of its courses' credits |
| Results.TotalCredits | src/pages/Results.tsx:28-31 | `totalCredits`: the per-semester sums added up, equal to the sum over all courses (see Results.TotalIsSumOfAllCourses) |
| Results.ToggleSemester | src/pages/Results.tsx:24-26 | the toggled card is open afterwards exactly when it was closed before, and no other card is open |
| Results.ToggleTwice | src/pages/Results.tsx:24-26 | toggling the same card twice restores the accordion when that card or no card was open |
| Results.AtMostOneOpen | src/pages/Results.tsx:99-101 | with distinct keys, at most one semester card is open |
| Results.KeyDeterminesSemester | src/pages/Results.tsx:100 | with sessions of equal length, equal keys mean the same semester of the same session |
| Results.DisplayOrder | src/pages/Results.tsx:99 | semesters are listed in reverse record order |
| Results.InitialExpanded | src/pages/Results.tsx:20-22 | the initially open card is the last record, which is the first one listed |
| Results.TotalIsSumOfAllCourses | src/pages/Results.tsx:28-31 | the total of per-semester sums equals the credit sum over all graded courses |
| Results.TotalIsSumOfShownSemesters | src/pages/Results.tsx:28-31 | the per-semester figures, as listed newest first, add up to the total |
| Timetable.JsRemainder | src/pages/Timetable.tsx:28 | JavaScript `%`: the result takes the sign of the dividend, its magnitude is the Euclidean remainder of the magnitudes, and -1 stays -1 |
| Timetable.ClassForSlot | src/pages/Timetable.tsx:31-33 | the cell shows the first entry on that day and time, and nothing exactly when no entry matches |
| Timetable.SlotLookupUnambiguous | src/pages/Timetable.tsx:31-33 | when no two entries share a cell, every entry is what its cell shows |
| Timetable.DayClasses | src/pages/Timetable.tsx:111 | a day's list holds exactly that day's entries, in timetable order, as many as the timetable has |
| Timetable.ClassCountLabel | src/pages/Timetable.tsx:124 | the word is "class" exactly for a count of one, and "classes" otherwise |
| Timetable.ColorIndex | src/pages/Timetable.tsx:26-28 | the colour index lies in -1..5, and is -1 exactly for a code no registered course has |
| Timetable.CourseColor | src/pages/Timetable.tsx:26-29 | an unregistered code gets no colour; a registered one gets the colour at its first position modulo 6 |
| Timetable.RegisteredCourseColoured | src/pages/Timetable.tsx:26-29 | every registered course gets a colour |
| Timetable.Legend | src/pages/Timetable.tsx:181-187 | the legend lists every registered course, in order, and entry i has the palette colour at position i mod 6, repeated codes included |
| Timetable.LegendMatchesCells | src/pages/Timetable.tsx:181-187 | with distinct codes, a course's cells have the colour of its legend entry |
| Dashboard.TodayClasses | src/pages/Dashboard.tsx:53 | the first three Monday entries in timetable order, or all of them when there are fewer than three |
| Dashboard.UnreadAnnouncements | src/pages/Dashboard.tsx:54 | exactly the unread announcements, in order, one per unread entry, so its length is the unread count |
| Dashboard.NewBadge | src/pages/Dashboard.tsx:197-201 | the badge shows exactly when some announcement is unread, with the number of unread ones |
| Dashboard.RegisteredCreditSum | src/pages/Dashboard.tsx:308 | the "credit units" label: the credits of all registered courses summed |
| Dashboard.CreditSumSplits | src/pages/Dashboard.tsx:308 | the credit label counts every registered course, including those beyond the four shown |
| Dashboard.Preview | src/pages/Dashboard.tsx:213 | the announcement preview (and, at line 313, the course preview) is a prefix of the list of exactly four entries, or the whole list when it is shorter |
| Dashboard.CodeBadge | src/pages/Dashboard.tsx:320 | the badge is the code's first three characters, or the whole code when shorter |
| Dashboard.CategoryIcons | src/pages/Dashboard.tsx:219-230 | Examination shows the alert icon, Academic the book, Finance the file and Events the calendar |
| Dashboard.StyleOf | src/pages/Dashboard.tsx:219-230 | the four known categories get their own icon; every other category gets the muted bell style |
| Dashboard.KnownStylesDistinct | src/pages/Dashboard.tsx:219-230 | distinct known categories get distinct styles |
| FixtureFacts.CatalogWellFormed | src/data/mockData.ts:137-148 | catalog codes are pairwise distinct and every course carries positive credits |
| FixtureFacts.RegisteredMatchCatalog | src/data/mockData.ts:137-157 | each registered course has the code, title, credits and lecturer of the catalog course at the same position |
| FixtureFacts.RegisteredCodesMatch | src/data/mockData.ts:137-157 | the registered codes are the first six catalog codes |
| FixtureFacts.InitialHeld | src/data/mockData.ts:137-157 | the registration page starts holding exactly the first six catalog courses |
| FixtureFacts.InitialDisjoint | src/data/mockData.ts:150-157 | the initial lists are duplicate-free and disjoint |
| FixtureFacts.FirstSixCredits | src/data/mockData.ts:137-148 | holding exactly the first six catalog courses is worth 18 credits |
| FixtureFacts.InitialCredits | src/data/mockData.ts:137-157 | the registration page opens with 18 credits |
| FixtureFacts.DashboardCredits | src/data/mockData.ts:150-157 | the dashboard's credit label shows 18 |
| FixtureFacts.CatalogExceedsCeiling | src/data/mockData.ts:137-148 | the whole catalog is worth 26 credits, above the ceiling of 24 |
| FixtureFacts.ElectivesFillCeiling | src/pages/CourseRegistration.tsx:25-40 | in a ten-course catalog holding its first six at 18 credits, three 2-credit adds reach 20, 22 and 24, and a fourth is refused |
| FixtureFacts.FillToCeiling | src/pages/CourseRegistration.tsx:25-40 | from the fixtures, adding CSC313, CSC315 and CSC317 reaches exactly 24 credits, and GST301 is then refused without change |
| FixtureFacts.AddRegisteredCodeAccepted | src/pages/CourseRegistration.tsx:25-28 | called directly with the registered CSC301, the add succeeds, the code lands in the cart, and the total stays 18 |
| FixtureFacts.ReachableStates | src/pages/CourseRegistration.tsx:11-65 | whatever the student clicks, the lists stay duplicate-free and disjoint, the total stays within 24, and some catalog course stays out |
| FixtureFacts.NotificationIdsDistinct | src/data/mockData.ts:194-251 | notification ids are pairwise distinct |
| FixtureFacts.FeedsNewestFirst | src/data/mockData.ts:194-251 | notifications, and likewise announcements, are dated strictly newest first |
| FixtureFacts.DashboardBadge | src/data/mockData.ts:25-66 | two announcements are unread, so the dashboard badge shows 2 |
| FixtureFacts.TimetableCellsDistinct | src/data/mockData.ts:159-172 | no two timetable entries share a (day, time) cell |
| FixtureFacts.TimetableInGrid | src/data/mockData.ts:159-172 | every entry's day is a weekday row and its time a slot column of the grid |
| FixtureFacts.RegisteredCodesDistinct | src/data/mockData.ts:150-157 | registered codes are pairwise distinct |
| FixtureFacts.TimetableFollowsRegistered | src/data/mockData.ts:150-172 | the timetable runs through the six registered courses in order, twice, so every entry is a registered course |
| FixtureFacts.EveryCellColoured | src/data/mockData.ts:150-172 | every timetable entry gets a course colour |
| FixtureFacts.LegendAgreesWithCells | src/data/mockData.ts:150-157 | each registered course's cells and legend entry show the same colour |
| FixtureFacts.FeesAddUp | src/data/mockData.ts:174-192 | the fee breakdown sums to the total, the payments sum to the amount paid, and the balance is the difference |
| FixtureFacts.SemesterKeysDistinct | src/data/mockData.ts:68-135 | the accordion keys of the semesters are pairwise distinct |
| FixtureFacts.AcademicTotal | src/data/mockData.ts:68-135 | the five semesters carry 75 credits in all |
| FixtureFacts.DashboardCourseCount | src/data/mockData.ts:18-23 | the dashboard's course count equals the number of registered courses |

## Left out

- Floating point: GPA, CGPA and the fees page's payment percentage. The profile keeps the CGPA as an integer number of hundredths, and nothing computes with it.
- `src/pages/Fees.tsx`: only its integer sums are kept, as fixture facts. `formatCurrency` relies on `Intl.NumberFormat`.
- Clock and locale: `formatDate` takes the elapsed milliseconds as a parameter instead of reading `new Date()`. The calendar-date branch's text (`toLocaleDateString`) is left unmodelled.
- Notifications.FormatDate: milliseconds are integers, so the floating-point division before `Math.floor` is not modelled. A date string that fails to parse (`NaN`) is also not modelled.
- Routing.Lookup, Routing.Resolve: paths are matched exactly, so react-router's case-insensitive matching and trailing-slash normalisation are not modelled.
- Notifications.StyleFor: looks up the six table keys only, so a type naming an inherited object property (such as `constructor`) is not modelled.
- Toasts, animations, layout, `getStatusBadge` and the other purely presentational class choices.
- `src/pages/Login.tsx`, `src/pages/Profile.tsx` and `src/components/layout/DashboardLayout.tsx`: form handling, display only, and navigation after logout. Their one piece of logic is `login`/`logout`, which is in `Session`.
- The theme context and the not-found page are not part of this model. The router's catch-all route is modelled as the `NotFoundPage` decision.
- FixtureFacts.FeedsNewestFirst: compares calendar days (`YYYY-MM-DD`) and ignores times of day. That is enough because no two entries share a day.
- Results.InitialExpanded: requires at least one academic record. With an empty `academicRecords` the source throws a TypeError when it reads the last record; the fixture has five records.
- Dashboard.CodeBadge: takes the first three characters. JavaScript's `slice(0, 3)` counts UTF-16 code units, so the two differ only for characters outside the Basic Multilingual Plane. The course codes are ASCII.
