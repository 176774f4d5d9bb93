/**
 The course-registration page (src/pages/CourseRegistration.tsx): two lists of
 course codes, `registered` and `cart`, a credit total derived from the
 catalog, and the four actions add, remove, drop and confirm. Toasts are the
 page's only other effect and are represented by the outcome of `AddToCart`.
 */
module Registration {
  import opened Optional
  import opened MockData
  import Seqs

  const maxCredits := 24

  /* The total above which the page shows its "High credit load" warning. */
  const highLoadThreshold := 20

  datatype RegState = RegState(registered: seq<Code>, cart: seq<Code>)

  /* The page's initial state: the fixture's registered codes and an empty cart. */
  function Initial(): (s: RegState)
    ensures |s.registered| == |registeredCourses| && s.cart == []
    ensures forall i :: 0 <= i < |registeredCourses| ==> s.registered[i] == registeredCourses[i].code
  {
    RegState(CodesOf(registeredCourses), [])
  }

  function CodesOf(rs: seq<RegisteredCourse>): (codes: seq<Code>)
    ensures |codes| == |rs|
    ensures forall i :: 0 <= i < |rs| ==> codes[i] == rs[i].code
  {
    if |rs| == 0 then [] else [rs[0].code] + CodesOf(rs[1..])
  }

  /* Catalog codes are unique keys and every course carries positive credits. */
  predicate WellFormedCatalog(catalog: seq<Course>)
  {
    && (forall i, j :: 0 <= i < j < |catalog| ==> catalog[i].code != catalog[j].code)
    && (forall i :: 0 <= i < |catalog| ==> catalog[i].credits > 0)
  }

  predicate NonNegativeCredits(catalog: seq<Course>)
  {
    forall i :: 0 <= i < |catalog| ==> catalog[i].credits >= 0
  }

  /* The credits of the catalog courses whose code is in `held`, summed along
     the catalog (`filter` by membership, then `reduce`). Each catalog entry
     contributes at most once, however often its code occurs in the lists. */
  function CreditsOf(catalog: seq<Course>, held: set<Code>): int
  {
    if |catalog| == 0 then 0
    else (if catalog[0].code in held then catalog[0].credits else 0) + CreditsOf(catalog[1..], held)
  }

  /* The codes `includes` finds in either list. */
  function Held(s: RegState): set<Code>
  {
    Seqs.Elements(s.registered) + Seqs.Elements(s.cart)
  }

  /* `currentCredits`. */
  function CurrentCredits(catalog: seq<Course>, s: RegState): int
  {
    CreditsOf(catalog, Held(s))
  }

  /* The "Total Registered" figure: the registered list only. */
  function RegisteredCredits(catalog: seq<Course>, s: RegState): int
  {
    CreditsOf(catalog, Seqs.Elements(s.registered))
  }

  /* `availableCourses.find(c => c.code === code)`. */
  function FindCourse(catalog: seq<Course>, code: Code): (r: Option<Course>)
    ensures r.Some? ==> r.value in catalog && r.value.code == code
    ensures r.None? <==> forall i :: 0 <= i < |catalog| ==> catalog[i].code != code
    ensures r.Some? ==>
      exists i :: 0 <= i < |catalog| && catalog[i] == r.value && forall j :: 0 <= j < i ==> catalog[j].code != code
  {
    Seqs.Find(catalog, (c: Course) => c.code == code)
  }

  /* In a well-formed catalog, looking up an entry's code finds that entry. */
  lemma FindCourseAt(catalog: seq<Course>, k: int)
    requires WellFormedCatalog(catalog)
    requires 0 <= k < |catalog|
    ensures FindCourse(catalog, catalog[k].code) == Some(catalog[k])
  {
    var code := catalog[k].code;
    Seqs.FindUnique(catalog, (c: Course) => c.code == code, k);
  }

  datatype AddOutcome = Added | LimitExceeded

  datatype AddResult = AddResult(state: RegState, outcome: AddOutcome)

  /* `addToCart(code)`: appends `code` when it names a catalog course whose
     credits still fit under the ceiling; an unknown code takes the same
     "Credit limit exceeded" branch. Neither list is checked for `code`. */
  function AddToCart(catalog: seq<Course>, s: RegState, code: Code): (r: AddResult)
    ensures r.outcome == Added <==>
      FindCourse(catalog, code).Some? &&
      CurrentCredits(catalog, s) + FindCourse(catalog, code).value.credits <= maxCredits
    ensures r.outcome == Added ==> r.state == RegState(s.registered, s.cart + [code])
    ensures r.outcome == LimitExceeded ==> r.state == s
  {
    match FindCourse(catalog, code)
    case Some(course) =>
      if CurrentCredits(catalog, s) + course.credits <= maxCredits
      then AddResult(RegState(s.registered, s.cart + [code]), Added)
      else AddResult(s, LimitExceeded)
    case None => AddResult(s, LimitExceeded)
  }

  predicate IsNot(code: Code, c: Code)
  {
    c != code
  }

  /* The `filter` callback of remove and drop: keep every code but `code`. */
  function KeepOthers(code: Code): Code -> bool
  {
    c => IsNot(code, c)
  }

  /* `removeFromCart(code)`: every occurrence of `code` leaves the cart. */
  function RemoveFromCart(s: RegState, code: Code): (r: RegState)
    ensures r.registered == s.registered
    ensures code !in r.cart
    ensures forall i :: 0 <= i < |s.cart| && s.cart[i] != code ==> s.cart[i] in r.cart
    ensures forall i :: 0 <= i < |r.cart| ==> r.cart[i] in s.cart
    ensures Seqs.IsSubsequence(r.cart, s.cart)
    ensures code !in s.cart ==> r == s
    ensures |r.cart| == Seqs.Count(s.cart, KeepOthers(code))
  {
    Seqs.FilterLengthIsCount(s.cart, KeepOthers(code));
    RegState(s.registered, Seqs.Filter(s.cart, KeepOthers(code)))
  }

  /* `dropCourse(code)`: the mirror image of `RemoveFromCart` on `registered`. */
  function DropCourse(s: RegState, code: Code): (r: RegState)
    ensures r.cart == s.cart
    ensures code !in r.registered
    ensures forall i :: 0 <= i < |s.registered| && s.registered[i] != code ==> s.registered[i] in r.registered
    ensures forall i :: 0 <= i < |r.registered| ==> r.registered[i] in s.registered
    ensures Seqs.IsSubsequence(r.registered, s.registered)
    ensures code !in s.registered ==> r == s
    ensures |r.registered| == Seqs.Count(s.registered, KeepOthers(code))
  {
    Seqs.FilterLengthIsCount(s.registered, KeepOthers(code));
    RegState(Seqs.Filter(s.registered, KeepOthers(code)), s.cart)
  }

  /* `confirmRegistration()`: the cart is appended to `registered` and emptied. */
  function Confirm(s: RegState): (r: RegState)
    ensures r.cart == []
    ensures |r.registered| == |s.registered| + |s.cart|
    ensures r.registered[..|s.registered|] == s.registered
    ensures r.registered[|s.registered|..] == s.cart
  {
    RegState(s.registered + s.cart, [])
  }

  /* Removing the same code twice is the same as removing it once. */
  lemma RemoveIdempotent(s: RegState, code: Code)
    ensures RemoveFromCart(RemoveFromCart(s, code), code) == RemoveFromCart(s, code)
  {
  }

  lemma DropIdempotent(s: RegState, code: Code)
    ensures DropCourse(DropCourse(s, code), code) == DropCourse(s, code)
  {
  }

  /* A second confirm leaves everything as the first left it. */
  lemma ConfirmTwice(s: RegState)
    ensures Confirm(Confirm(s)) == Confirm(s)
  {
    assert s.registered + s.cart + [] == s.registered + s.cart;
  }

  // ---------------------------------------------------------------------------
  // Facts about the credit sum

  lemma {:induction false} CreditsNonNegative(catalog: seq<Course>, held: set<Code>)
    requires NonNegativeCredits(catalog)
    ensures CreditsOf(catalog, held) >= 0
    decreases |catalog|
  {
    if |catalog| > 0 {
      CreditsNonNegative(catalog[1..], held);
    }
  }

  /* Holding more codes never lowers the total. */
  lemma {:induction false} CreditsMonotone(catalog: seq<Course>, small: set<Code>, large: set<Code>)
    requires NonNegativeCredits(catalog)
    requires small <= large
    ensures CreditsOf(catalog, small) <= CreditsOf(catalog, large)
    decreases |catalog|
  {
    if |catalog| > 0 {
      CreditsMonotone(catalog[1..], small, large);
    }
  }

  /* The total depends only on which catalog codes are held. */
  lemma {:induction false} CreditsAgree(catalog: seq<Course>, h1: set<Code>, h2: set<Code>)
    requires forall i :: 0 <= i < |catalog| ==> (catalog[i].code in h1 <==> catalog[i].code in h2)
    ensures CreditsOf(catalog, h1) == CreditsOf(catalog, h2)
    decreases |catalog|
  {
    if |catalog| > 0 {
      CreditsAgree(catalog[1..], h1, h2);
    }
  }

  /* Adding a code not yet held, of catalog course `catalog[k]`, raises the
     total by exactly that course's credits (codes being unique). */
  lemma {:induction false} CreditsInsert(catalog: seq<Course>, held: set<Code>, k: int)
    requires WellFormedCatalog(catalog)
    requires 0 <= k < |catalog| && catalog[k].code !in held
    ensures CreditsOf(catalog, held + {catalog[k].code}) == CreditsOf(catalog, held) + catalog[k].credits
    decreases |catalog|
  {
    var code := catalog[k].code;
    if k == 0 {
      CreditsAgree(catalog[1..], held + {code}, held);
    } else {
      CreditsInsert(catalog[1..], held, k - 1);
    }
  }

  function CourseCredits(c: Course): int
  {
    c.credits
  }

  /* The credits of the whole catalog. */
  function CatalogTotal(catalog: seq<Course>): int
  {
    Seqs.SumOf(catalog, CourseCredits)
  }

  /* Each catalog course counts at most once: whatever the lists hold, the
     total never exceeds the sum of the whole catalog. */
  lemma {:induction false} CreditsAtMostCatalog(catalog: seq<Course>, held: set<Code>)
    requires NonNegativeCredits(catalog)
    ensures CreditsOf(catalog, held) <= CatalogTotal(catalog)
    decreases |catalog|
  {
    if |catalog| > 0 {
      CreditsAtMostCatalog(catalog[1..], held);
    }
  }

  /* Holding every catalog code reaches the whole catalog's credits. */
  lemma {:induction false} CreditsAllHeld(catalog: seq<Course>, held: set<Code>)
    requires forall i :: 0 <= i < |catalog| ==> catalog[i].code in held
    ensures CreditsOf(catalog, held) == CatalogTotal(catalog)
    decreases |catalog|
  {
    if |catalog| > 0 {
      CreditsAllHeld(catalog[1..], held);
    }
  }

  /* A catalog whose total exceeds the ceiling can never be held entirely:
     within the ceiling, some catalog course is in neither list. */
  lemma CeilingLeavesCourseOut(catalog: seq<Course>, s: RegState)
    requires CatalogTotal(catalog) > maxCredits
    requires WithinCeiling(catalog, s)
    ensures exists i :: 0 <= i < |catalog| && catalog[i].code !in Held(s)
  {
    if forall i :: 0 <= i < |catalog| ==> catalog[i].code in Held(s) {
      CreditsAllHeld(catalog, Held(s));
    }
  }

  /* When the registered list holds the codes of the catalog's first entries
     in order and the cart is empty, a catalog course is held exactly when it
     is among those first entries. */
  lemma PrefixHeld(catalog: seq<Course>, s: RegState)
    requires WellFormedCatalog(catalog)
    requires s.cart == [] && |s.registered| <= |catalog|
    requires forall i :: 0 <= i < |s.registered| ==> s.registered[i] == catalog[i].code
    ensures forall k :: 0 <= k < |catalog| ==> (catalog[k].code in Held(s) <==> k < |s.registered|)
  {
    assert Held(s) == Seqs.Elements(s.registered);
    forall k | 0 <= k < |catalog|
      ensures catalog[k].code in Held(s) <==> k < |s.registered|
    {
      if k < |s.registered| {
        assert s.registered[k] == catalog[k].code;
      }
    }
  }

  /* A code repeated in a list is not counted again. */
  lemma DuplicateNotCounted(catalog: seq<Course>, s: RegState, code: Code)
    requires code in s.registered || code in s.cart
    ensures CurrentCredits(catalog, RegState(s.registered + [code], s.cart)) == CurrentCredits(catalog, s)
    ensures CurrentCredits(catalog, RegState(s.registered, s.cart + [code])) == CurrentCredits(catalog, s)
  {
    assert Held(RegState(s.registered + [code], s.cart)) == Held(s);
    assert Held(RegState(s.registered, s.cart + [code])) == Held(s);
  }

  /* A successful add raises the total by the course's credits when the code
     was not held yet, and leaves it unchanged when it was. */
  lemma AddCredits(catalog: seq<Course>, s: RegState, code: Code)
    requires WellFormedCatalog(catalog)
    requires AddToCart(catalog, s, code).outcome == Added
    ensures code !in Held(s) ==>
      CurrentCredits(catalog, AddToCart(catalog, s, code).state)
        == CurrentCredits(catalog, s) + FindCourse(catalog, code).value.credits
    ensures code in Held(s) ==>
      CurrentCredits(catalog, AddToCart(catalog, s, code).state) == CurrentCredits(catalog, s)
  {
    var s' := AddToCart(catalog, s, code).state;
    assert Held(s') == Held(s) + {code};
    var course := FindCourse(catalog, code).value;
    var k :| 0 <= k < |catalog| && catalog[k] == course;
    if code !in Held(s) {
      CreditsInsert(catalog, Held(s), k);
    } else {
      assert Held(s') == Held(s);
    }
  }

  /* Adding catalog course `catalog[k]`, held in neither list, with room under
     the ceiling: the add succeeds and the total grows by its credits. */
  lemma AddFreshCourse(catalog: seq<Course>, s: RegState, k: int)
    requires WellFormedCatalog(catalog)
    requires 0 <= k < |catalog| && catalog[k].code !in Held(s)
    requires CurrentCredits(catalog, s) + catalog[k].credits <= maxCredits
    ensures AddToCart(catalog, s, catalog[k].code).outcome == Added
    ensures Held(AddToCart(catalog, s, catalog[k].code).state) == Held(s) + {catalog[k].code}
    ensures CurrentCredits(catalog, AddToCart(catalog, s, catalog[k].code).state)
      == CurrentCredits(catalog, s) + catalog[k].credits
  {
    FindCourseAt(catalog, k);
    AddCredits(catalog, s, catalog[k].code);
    assert Held(AddToCart(catalog, s, catalog[k].code).state) == Held(s) + {catalog[k].code};
  }

  /* `addToCart` never looks for the code in either list: a course already
     held is appended again when its credits would fit, and the total, which
     counts each catalog course once, stays the same. */
  lemma AddHeldCourse(catalog: seq<Course>, s: RegState, k: int)
    requires WellFormedCatalog(catalog)
    requires 0 <= k < |catalog| && catalog[k].code in Held(s)
    requires CurrentCredits(catalog, s) + catalog[k].credits <= maxCredits
    ensures AddToCart(catalog, s, catalog[k].code).outcome == Added
    ensures AddToCart(catalog, s, catalog[k].code).state.cart == s.cart + [catalog[k].code]
    ensures CurrentCredits(catalog, AddToCart(catalog, s, catalog[k].code).state) == CurrentCredits(catalog, s)
  {
    FindCourseAt(catalog, k);
    AddCredits(catalog, s, catalog[k].code);
  }

  /* Confirming moves the cart without changing the credit total. */
  lemma ConfirmKeepsCredits(catalog: seq<Course>, s: RegState)
    ensures CurrentCredits(catalog, Confirm(s)) == CurrentCredits(catalog, s)
    ensures Held(Confirm(s)) == Held(s)
  {
    assert Held(Confirm(s)) == Held(s);
  }

  /* The "Total Registered" figure never exceeds the page's credit total. */
  lemma RegisteredAtMostCurrent(catalog: seq<Course>, s: RegState)
    requires NonNegativeCredits(catalog)
    ensures RegisteredCredits(catalog, s) <= CurrentCredits(catalog, s)
  {
    CreditsMonotone(catalog, Seqs.Elements(s.registered), Held(s));
  }

  // ---------------------------------------------------------------------------
  // Actions and the credit ceiling

  datatype Action = Add(code: Code) | Remove(code: Code) | Drop(code: Code) | ConfirmCart

  function Step(catalog: seq<Course>, s: RegState, a: Action): RegState
  {
    match a
    case Add(code) => AddToCart(catalog, s, code).state
    case Remove(code) => RemoveFromCart(s, code)
    case Drop(code) => DropCourse(s, code)
    case ConfirmCart => Confirm(s)
  }

  function Run(catalog: seq<Course>, s: RegState, actions: seq<Action>): RegState
    decreases |actions|
  {
    if |actions| == 0 then s else Run(catalog, Step(catalog, s, actions[0]), actions[1..])
  }

  predicate WithinCeiling(catalog: seq<Course>, s: RegState)
  {
    CurrentCredits(catalog, s) <= maxCredits
  }

  /* One action never lifts the total above the ceiling. */
  lemma StepKeepsCeiling(catalog: seq<Course>, s: RegState, a: Action)
    requires WellFormedCatalog(catalog)
    requires WithinCeiling(catalog, s)
    ensures WithinCeiling(catalog, Step(catalog, s, a))
  {
    match a
    case Add(code) =>
      if AddToCart(catalog, s, code).outcome == Added {
        AddCredits(catalog, s, code);
      }
    case Remove(code) =>
      CreditsMonotone(catalog, Held(RemoveFromCart(s, code)), Held(s));
    case Drop(code) =>
      CreditsMonotone(catalog, Held(DropCourse(s, code)), Held(s));
    case ConfirmCart =>
      ConfirmKeepsCredits(catalog, s);
  }

  /* The credit ceiling holds after any sequence of add, remove, drop and
     confirm, whether or not the page's buttons would have offered them. */
  lemma {:induction false} RunKeepsCeiling(catalog: seq<Course>, s: RegState, actions: seq<Action>)
    requires WellFormedCatalog(catalog)
    requires WithinCeiling(catalog, s)
    ensures WithinCeiling(catalog, Run(catalog, s, actions))
    decreases |actions|
  {
    if |actions| > 0 {
      StepKeepsCeiling(catalog, s, actions[0]);
      RunKeepsCeiling(catalog, Step(catalog, s, actions[0]), actions[1..]);
    }
  }

  // ---------------------------------------------------------------------------
  // The buttons the page offers

  datatype Button = DropButton | RemoveButton | AddButton

  /* Drop for a registered course, else Remove for one in the cart, else Add. */
  function ButtonFor(s: RegState, code: Code): (b: Button)
    ensures b == DropButton <==> code in s.registered
    ensures b == RemoveButton <==> code !in s.registered && code in s.cart
    ensures b == AddButton <==> code !in s.registered && code !in s.cart
  {
    if code in s.registered then DropButton
    else if code in s.cart then RemoveButton
    else AddButton
  }

  /* The action a click on the course's button performs. The cart panel's
     own minus button performs `Remove` for a code in the cart. */
  function Press(s: RegState, code: Code): (a: Action)
    ensures a == Drop(code) <==> code in s.registered
    ensures a == Remove(code) <==> code !in s.registered && code in s.cart
    ensures a == Add(code) <==> code !in s.registered && code !in s.cart
  {
    match ButtonFor(s, code)
    case DropButton => Drop(code)
    case RemoveButton => Remove(code)
    case AddButton => Add(code)
  }

  /* The page only ever offers Add for a code in neither list. */
  predicate Gated(s: RegState, a: Action)
  {
    a.Add? ==> a.code !in s.registered && a.code !in s.cart
  }

  /* Every button press is a gated action. */
  lemma PressIsGated(s: RegState, code: Code)
    ensures Gated(s, Press(s, code))
    ensures Press(s, code).code == code
  {
  }

  /* Every step of the run was one the page offered. */
  predicate GatedRun(catalog: seq<Course>, s: RegState, actions: seq<Action>)
    decreases |actions|
  {
    |actions| == 0 ||
    (Gated(s, actions[0]) && GatedRun(catalog, Step(catalog, s, actions[0]), actions[1..]))
  }

  /* Both lists are duplicate-free and share no code. */
  predicate Disjoint(s: RegState)
  {
    && Seqs.NoDuplicates(s.registered)
    && Seqs.NoDuplicates(s.cart)
    && (forall i :: 0 <= i < |s.cart| ==> s.cart[i] !in s.registered)
  }

  lemma StepKeepsDisjoint(catalog: seq<Course>, s: RegState, a: Action)
    requires Disjoint(s) && Gated(s, a)
    ensures Disjoint(Step(catalog, s, a))
  {
    match a
    case Add(code) =>
      var r := AddToCart(catalog, s, code);
      if r.outcome == Added {
        assert r.state.cart == s.cart + [code];
        forall i, j | 0 <= i < j < |r.state.cart|
          ensures r.state.cart[i] != r.state.cart[j]
        {
          if j == |s.cart| {
            assert r.state.cart[i] == s.cart[i];
          }
        }
      }
    case Remove(code) =>
    case Drop(code) =>
    case ConfirmCart =>
      var r := Confirm(s);
      forall i, j | 0 <= i < j < |r.registered|
        ensures r.registered[i] != r.registered[j]
      {
        if j >= |s.registered| && i < |s.registered| {
          assert r.registered[j] == s.cart[j - |s.registered|];
        }
      }
  }

  /* Under the page's gating, both lists stay duplicate-free and disjoint. */
  lemma {:induction false} GatedRunKeepsDisjoint(catalog: seq<Course>, s: RegState, actions: seq<Action>)
    requires Disjoint(s) && GatedRun(catalog, s, actions)
    ensures Disjoint(Run(catalog, s, actions))
    decreases |actions|
  {
    if |actions| > 0 {
      StepKeepsDisjoint(catalog, s, actions[0]);
      GatedRunKeepsDisjoint(catalog, Step(catalog, s, actions[0]), actions[1..]);
    }
  }

  // ---------------------------------------------------------------------------
  // What the summary panel shows

  datatype Summary = Summary(
    credits: int,
    registeredCredits: int,
    cartBadge: Option<nat>,
    highLoadWarning: bool,
    overLimitHighlight: bool)

  /* The header total, the "Total Registered" line, the cart badge (shown only
     for a non-empty cart), the high-load warning and the red total. */
  function SummaryOf(catalog: seq<Course>, s: RegState): (v: Summary)
    requires NonNegativeCredits(catalog)
    ensures v.credits == CurrentCredits(catalog, s)
    ensures v.registeredCredits == RegisteredCredits(catalog, s)
    ensures 0 <= v.registeredCredits <= v.credits
    ensures v.cartBadge.Some? <==> |s.cart| > 0
    ensures v.cartBadge.Some? ==> v.cartBadge.value == |s.cart|
    ensures v.highLoadWarning <==> v.credits > highLoadThreshold
    ensures v.overLimitHighlight <==> v.credits > maxCredits
  {
    var credits := CurrentCredits(catalog, s);
    var registered := RegisteredCredits(catalog, s);
    RegisteredAtMostCurrent(catalog, s);
    CreditsNonNegative(catalog, Seqs.Elements(s.registered));
    Summary(
      credits, registered,
      if |s.cart| > 0 then Some(|s.cart|) else None,
      credits > highLoadThreshold,
      credits > maxCredits)
  }

  /* Within the ceiling the total is never shown in red, and a high-load
     warning means a total of 21 to 24. */
  lemma SummaryWithinCeiling(catalog: seq<Course>, s: RegState)
    requires WellFormedCatalog(catalog) && WithinCeiling(catalog, s)
    ensures !SummaryOf(catalog, s).overLimitHighlight
    ensures SummaryOf(catalog, s).highLoadWarning <==> 21 <= CurrentCredits(catalog, s) <= 24
  {
  }
}
