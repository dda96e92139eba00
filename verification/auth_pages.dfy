/** The page side of signing in: the emulated authentication service the
    pages call (`login`, `signup`, and the user it makes up), the sign-up
    form's own checks, and the guard that decides what a protected route
    shows. */
module AuthPages {
  import opened Outcomes
  import opened Text
  import Users

  /** The role names the pages show and store. */
  const Administrator := "Администратор"
  const Researcher := "Исследователь"

  /** A signed-in user as the pages keep it. */
  datatype User = User(id: int, username: string, role: string, token: string)

  // ---------------------------------------------------------------------
  // The emulated service
  // ---------------------------------------------------------------------

  /** The role the service gives a name: administrator exactly when the
      lower-cased name contains "admin". */
  function MockRole(username: string): string
  {
    if Contains(ToLower(username), "admin") then Administrator else Researcher
  }

  /** `mockUserResponse`: `random` is the draw of `Math.random()` and `now`
      the clock reading of `Date.now()`. */
  function MockUser(username: string, random: real, now: nat): (u: User)
    requires 0.0 <= random < 1.0
    ensures 0 <= u.id < 1000 && u.username == username
    ensures u.role == Administrator || u.role == Researcher
    ensures u.token == "mock-token-" + NatToString(now)
  {
    User((random * 1000.0).Floor, username, MockRole(username), "mock-token-" + NatToString(now))
  }

  datatype AuthError = CredentialsRequired | UsernameTooShort(min: nat) | PasswordTooShort(min: nat)

  /** `authService.login`: both fields are required and the password needs at
      least 4 code units. */
  function Login(username: string, password: string, random: real, now: nat): (r: Result<User, AuthError>)
    requires 0.0 <= random < 1.0
    ensures r.Success? <==> username != "" && password != "" && Utf16Length(password) >= 4
    ensures r.Success? ==> r.value == MockUser(username, random, now)
  {
    if username == "" || password == "" then Failure(CredentialsRequired)
    else if Utf16Length(password) < 4 then Failure(PasswordTooShort(4))
    else Success(MockUser(username, random, now))
  }

  /** `authService.signup`: both fields are required, the username needs at
      least 3 code units and the password at least 6. */
  function Signup(username: string, password: string, random: real, now: nat): (r: Result<User, AuthError>)
    requires 0.0 <= random < 1.0
    ensures r.Success? <==> username != "" && password != "" && Utf16Length(username) >= 3 && Utf16Length(password) >= 6
    ensures r.Success? ==> r.value == MockUser(username, random, now)
  {
    if username == "" || password == "" then Failure(CredentialsRequired)
    else if Utf16Length(username) < 3 then Failure(UsernameTooShort(3))
    else if Utf16Length(password) < 6 then Failure(PasswordTooShort(6))
    else Success(MockUser(username, random, now))
  }

  /** Whoever could sign up can then sign in with the same password, and
      gets the same role. */
  lemma SignedUpCanLogIn(username: string, password: string, random: real, now: nat)
    requires 0.0 <= random < 1.0
    requires Signup(username, password, random, now).Success?
    ensures Login(username, password, random, now) == Signup(username, password, random, now)
  {
  }

  /** Lower-casing distributes over concatenation. */
  lemma LowerAppend(a: string, b: string)
    ensures ToLower(a + b) == ToLower(a) + ToLower(b)
  {
    var l := ToLower(a + b);
    var r := ToLower(a) + ToLower(b);
    forall k | 0 <= k < |l| ensures l[k] == r[k] {
      if k < |a| {
        assert (a + b)[k] == a[k];
      } else {
        assert (a + b)[k] == b[k - |a|];
      }
    }
  }

  /** A string contains whatever stands in its middle. */
  lemma ContainsMiddle(x: string, w: string, y: string)
    ensures Contains(x + w + y, w)
  {
    ContainsPrefix(w, y);
    ContainsAppendLeft(x, w + y, w);
    assert x + (w + y) == x + w + y;
  }

  /** Any name holding "admin" in any mix of cases, wherever it stands, gets
      the administrator role: "admin", "Admin" and "SYSADMIN" alike. */
  lemma AdminAnywhere(front: string, word: string, back: string)
    requires ToLower(word) == "admin"
    ensures MockRole(front + word + back) == Administrator
  {
    LowerAppend(front + word, back);
    LowerAppend(front, word);
    ContainsMiddle(ToLower(front), ToLower(word), ToLower(back));
  }

  /** A name with no letter a, in either case, gets the researcher role. */
  lemma ResearcherWithoutA(username: string)
    requires forall k :: 0 <= k < |username| ==> username[k] != 'a' && username[k] != 'A'
    ensures MockRole(username) == Researcher
  {
    var lower := ToLower(username);
    assert 'a' !in lower by {
      forall k | 0 <= k < |lower| ensures lower[k] != 'a' {
        assert lower[k] == LowerChar(username[k]);
      }
    }
    NotContainsWithoutFirstChar(lower, "admin");
  }

  // ---------------------------------------------------------------------
  // The sign-up form
  // ---------------------------------------------------------------------

  datatype SignUpError = FieldsRequired | PasswordsDiffer | ShortUsername | ShortPassword

  /** `handleSubmit` of the sign-up page: every field filled, the two
      passwords equal, then the service's length rules. */
  function CheckSignUp(username: string, password: string, confirm: string): (r: Result<(), SignUpError>)
    ensures r.Success? <==> username != "" && password != "" && password == confirm
                            && Utf16Length(username) >= 3 && Utf16Length(password) >= 6
    ensures r.Failure? && (username == "" || password == "" || confirm == "") ==> r.error == FieldsRequired
  {
    if username == "" || password == "" || confirm == "" then Failure(FieldsRequired)
    else if password != confirm then Failure(PasswordsDiffer)
    else if Utf16Length(username) < 3 then Failure(ShortUsername)
    else if Utf16Length(password) < 6 then Failure(ShortPassword)
    else Success(())
  }

  /** The form sends only what the service accepts, and refuses only
      mismatched confirmations of what the service would accept. */
  lemma FormMatchesService(username: string, password: string, confirm: string, random: real, now: nat)
    requires 0.0 <= random < 1.0
    ensures CheckSignUp(username, password, confirm).Success? ==> Signup(username, password, random, now).Success?
    ensures Signup(username, password, random, now).Success? && confirm == password ==>
              CheckSignUp(username, password, confirm).Success?
  {
  }

  /** Lengths are counted in UTF-16 code units: two characters outside the
      Basic Multilingual Plane make a long enough username. */
  lemma AstralUsername(random: real, now: nat)
    requires 0.0 <= random < 1.0
    ensures Signup("\U{1F600}\U{1F600}", "secret", random, now).Success?
  {
    assert Utf16Length("\U{1F600}\U{1F600}") == 4;
    Utf16LengthBmp("secret");
  }

  // ---------------------------------------------------------------------
  // Protected routes
  // ---------------------------------------------------------------------

  /** What a protected route renders. */
  datatype Outcome = Spinner | ToLogin | ToHome | Children

  /** `ProtectedRoute`: a spinner while the session is loading or being
      checked, then the sign-in page for nobody, the home page for a user
      without the required role (an empty required role requires nothing),
      and the page itself otherwise. */
  function Guard(loading: bool, checking: bool, user: Option<User>, requiredRole: Option<string>): (r: Outcome)
    ensures r == Children <==> !loading && !checking && user.Some?
                                && (requiredRole.None? || requiredRole.value == "" || user.value.role == requiredRole.value)
    ensures r == Spinner <==> loading || checking
    ensures r == ToLogin <==> !loading && !checking && user.None?
  {
    if loading || checking then Spinner
    else if user.None? then ToLogin
    else if requiredRole.Some? && requiredRole.value != "" && user.value.role != requiredRole.value then ToHome
    else Children
  }

  /** The role the administration panel's route requires. */
  const AdminPanelRole := "ADMIN"

  /** As written, the service's administrators carry a role name that is not
      the panel's: an administrator who signed in is sent home. */
  lemma MockAdminDeniedAdminPanel(password: string, random: real, now: nat)
    requires 0.0 <= random < 1.0 && Utf16Length(password) >= 4
    ensures var r := Login("admin", password, random, now);
            r.Success? && r.value.role == Administrator
            && Guard(false, false, Some(r.value), Some(AdminPanelRole)) == ToHome
  {
    AdminAnywhere("", "admin", "");
    assert "" + "admin" + "" == "admin";
  }

  /** The service's role under the server's role names. */
  function CorrectedRole(username: string): (role: string)
    ensures role == Users.RoleName(Users.Admin) <==> MockRole(username) == Administrator
  {
    if MockRole(username) == Administrator then Users.RoleName(Users.Admin) else Users.RoleName(Users.User)
  }

  /** `login` giving the server's role names. */
  function CorrectedLogin(username: string, password: string, random: real, now: nat): (r: Result<User, AuthError>)
    requires 0.0 <= random < 1.0
    ensures r.Success? <==> Login(username, password, random, now).Success?
    ensures r.Success? ==> r.value == Login(username, password, random, now).value.(role := CorrectedRole(username))
  {
    var u :- Login(username, password, random, now);
    Success(u.(role := CorrectedRole(username)))
  }

  /** With the server's role names, exactly the administrators reach the
      panel. */
  lemma CorrectedAdminReachesPanel(username: string, password: string, random: real, now: nat)
    requires 0.0 <= random < 1.0
    requires CorrectedLogin(username, password, random, now).Success?
    ensures var u := CorrectedLogin(username, password, random, now).value;
            (Guard(false, false, Some(u), Some(AdminPanelRole)) == Children <==> Contains(ToLower(username), "admin"))
  {
  }
}
