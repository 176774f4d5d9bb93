/**
 The mock authentication context (src/contexts/AuthContext.tsx): a flag and an
 optional profile, changed only by `login` and `logout`. There is no real
 credential check: any non-empty matric number and password are accepted and
 the fixed fixture profile is loaded.
 */
module Session {
  import opened Optional
  import opened MockData

  datatype AuthState = AuthState(isAuthenticated: bool, student: Option<Student>)

  /* The provider's initial state: `useState(false)` and `useState(null)`. */
  const initial := AuthState(false, None)

  /* The flag is set exactly when a profile is loaded. */
  predicate Consistent(s: AuthState)
  {
    s.isAuthenticated <==> s.student.Some?
  }

  datatype LoginResult = LoginResult(ok: bool, state: AuthState)

  /* JavaScript truthiness of a string: it is truthy iff it is non-empty. */
  predicate Truthy(str: string)
  {
    |str| > 0
  }

  /* `login(matricNumber, password)`. */
  function Login(s: AuthState, matricNumber: string, password: string): (r: LoginResult)
    ensures r.ok <==> matricNumber != "" && password != ""
    ensures r.ok ==> r.state == AuthState(true, Some(studentData))
    ensures !r.ok ==> r.state == s
  {
    if Truthy(matricNumber) && Truthy(password) then LoginResult(true, AuthState(true, Some(studentData)))
    else LoginResult(false, s)
  }

  /* `logout()`. */
  function Logout(s: AuthState): (r: AuthState)
    ensures !r.isAuthenticated && r.student.None?
    ensures Consistent(r)
  {
    AuthState(false, None)
  }

  /* Logging out twice is the same as logging out once. */
  lemma LogoutIdempotent(s: AuthState)
    ensures Logout(Logout(s)) == Logout(s)
  {
  }

  /* The profile loaded by a successful login does not depend on the matric
     number entered: every accepted login yields the fixture profile. */
  lemma LoginIgnoresMatricNumber(s: AuthState, m1: string, m2: string, p: string)
    requires m1 != "" && m2 != "" && p != ""
    ensures Login(s, m1, p).state == Login(s, m2, p).state
    ensures Login(s, m1, p).state.student.value.matricNumber == "2023/12914"
  {
  }

  datatype AuthAction = DoLogin(matricNumber: string, password: string) | DoLogout

  function Apply(s: AuthState, a: AuthAction): AuthState
  {
    match a
    case DoLogin(m, p) => Login(s, m, p).state
    case DoLogout => Logout(s)
  }

  function Run(s: AuthState, actions: seq<AuthAction>): AuthState
    decreases |actions|
  {
    if |actions| == 0 then s else Run(Apply(s, actions[0]), actions[1..])
  }

  /* In every state reachable from the initial one, the flag is set iff a
     profile is present, and a present profile is the fixture profile. */
  lemma {:induction false} ReachableConsistent(actions: seq<AuthAction>)
    ensures Consistent(Run(initial, actions))
    ensures Run(initial, actions).student.Some? ==> Run(initial, actions).student.value == studentData
  {
    RunPreserves(initial, actions);
  }

  /* Helper: consistency and "the profile is the fixture one" survive any run. */
  lemma {:induction false} RunPreserves(s: AuthState, actions: seq<AuthAction>)
    requires Consistent(s) && (s.student.Some? ==> s.student.value == studentData)
    ensures Consistent(Run(s, actions))
    ensures Run(s, actions).student.Some? ==> Run(s, actions).student.value == studentData
    decreases |actions|
  {
    if |actions| > 0 {
      RunPreserves(Apply(s, actions[0]), actions[1..]);
    }
  }

  /* The scenario of a rejected and an accepted login followed by a logout. */
  lemma LoginScenario()
    ensures !Login(initial, "", "x").ok && Login(initial, "", "x").state == initial
    ensures Login(initial, "2023/12914", "anything").ok
    ensures Login(initial, "2023/12914", "anything").state.student.value.matricNumber == "2023/12914"
    ensures Logout(Login(initial, "2023/12914", "anything").state) == initial
  {
  }
}
