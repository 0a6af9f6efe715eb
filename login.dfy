/**
 * The login screen: the password rule of its form, where a logged-in user is sent, and the
 * status message a submission shows.
 */
module Login {
  import opened Wrappers
  import opened Model
  import opened Users

  // ---------------------------------------------------------------------------------------
  // The password rule: /^(?=.*[a-z])(?=.*[A-Z])(?=.*\d)(?=.*[@$!%*?&])[A-Za-z\d@$!%*?&]{8,}$/

  predicate IsLowerAscii(c: char) { 'a' <= c <= 'z' }
  predicate IsUpperAscii(c: char) { 'A' <= c <= 'Z' }
  predicate IsDigitAscii(c: char) { '0' <= c <= '9' }
  predicate IsPasswordSymbol(c: char) { c in "@$!%*?&" }

  /** The character class [A-Za-z\d@$!%*?&]. */
  predicate IsPasswordChar(c: char) {
    IsLowerAscii(c) || IsUpperAscii(c) || IsDigitAscii(c) || IsPasswordSymbol(c)
  }

  /**
   * The password rule read by its parts: at least eight characters, each from the class, with
   * a lower-case letter, an upper-case letter, a digit and a symbol somewhere.
   */
  predicate StrongPassword(p: string) {
    |p| >= 8 &&
    (forall i | 0 <= i < |p| :: IsPasswordChar(p[i])) &&
    (exists i | 0 <= i < |p| :: IsLowerAscii(p[i])) &&
    (exists i | 0 <= i < |p| :: IsUpperAscii(p[i])) &&
    (exists i | 0 <= i < |p| :: IsDigitAscii(p[i])) &&
    (exists i | 0 <= i < |p| :: IsPasswordSymbol(p[i]))
  }

  /** The lookahead `(?=.*[...])` read at position 0: some later character is in the class. */
  function Lookahead(p: string, cls: char -> bool): (b: bool)
    ensures b <==> exists i | 0 <= i < |p| :: cls(p[i])
  {
    if p == [] then false
    else if cls(p[0]) then true
    else
      var b := Lookahead(p[1..], cls);
      assert forall i | 1 <= i < |p| :: p[1..][i - 1] == p[i];
      b
  }

  /** `[A-Za-z\d@$!%*?&]{8,}$`: the whole rest of the string is eight or more class characters. */
  function ClassRun(p: string): (n: nat)
    ensures n <= |p| && forall i | 0 <= i < n :: IsPasswordChar(p[i])
    ensures n == |p| || !IsPasswordChar(p[n])
  {
    if p == [] || !IsPasswordChar(p[0]) then 0 else 1 + ClassRun(p[1..])
  }

  predicate MatchesPasswordPattern(p: string) {
    Lookahead(p, IsLowerAscii) && Lookahead(p, IsUpperAscii) &&
    Lookahead(p, IsDigitAscii) && Lookahead(p, IsPasswordSymbol) &&
    ClassRun(p) == |p| && |p| >= 8
  }

  /** The pattern accepts exactly the strong passwords. */
  lemma PatternIsStrongPassword(p: string)
    ensures MatchesPasswordPattern(p) <==> StrongPassword(p)
  {
  }

  /** A character outside the class, such as a space or '#', is never accepted. */
  lemma OtherCharacterRejected(p: string, i: int)
    requires 0 <= i < |p| && !IsPasswordChar(p[i])
    ensures !MatchesPasswordPattern(p)
  {
    PatternIsStrongPassword(p);
  }

  /** Seven characters are too few, whatever they are. */
  lemma SevenCharactersRejected(p: string)
    requires |p| == 7
    ensures !MatchesPasswordPattern(p)
  {
  }

  // ---------------------------------------------------------------------------------------
  // Routing and submission

  /** role === 'admin' ? '/admin' : '/investigator'. */
  function RouteForRole(role: string): (route: string)
    ensures route == ADMIN_ROUTE <==> role == ADMIN_ROLE
    ensures route == INVESTIGATOR_ROUTE <==> role != ADMIN_ROLE
  {
    if role == ADMIN_ROLE then ADMIN_ROUTE else INVESTIGATOR_ROUTE
  }

  /** ngOnInit: a stored session sends the user on by role; without one the screen stays. */
  function InitialRedirect(loggedUser: Option<User>): (route: Option<string>)
    ensures route.None? <==> loggedUser.None?
    ensures loggedUser.Some? ==> route == Some(RouteForRole(loggedUser.value.role))
  {
    match loggedUser
    case None => None
    case Some(u) => Some(RouteForRole(u.role))
  }

  /** The authStatus signal's value. */
  datatype AuthStatus = AuthStatus(success: bool, message: string)

  const FORM_ERRORS_MESSAGE: string := "Please resolve the highlighted errors."
  const INVALID_CREDENTIALS_MESSAGE: string := "Invalid credentials."

  /** The form's validity: a non-empty email (its syntax is checked by a validator not modelled here) and a strong password. */
  predicate FormValid(email: string, password: string) {
    email != "" && password != "" && MatchesPasswordPattern(password)
  }

  /** The login form's state and the outcome of its last submission. */
  class LoginComponent {
    var email: string
    var password: string
    var touched: bool
    var authStatus: Option<AuthStatus>
    var storedUser: Option<User>
    var navigatedTo: Option<string>

    constructor()
      ensures email == "" && password == "" && !touched
      ensures authStatus == None && storedUser == None && navigatedTo == None
    {
      email := "";
      password := "";
      touched := false;
      authStatus := None;
      storedUser := None;
      navigatedTo := None;
    }

    /**
     * onSubmit. `emailValid` is the verdict of the email-syntax validator. An invalid form only
     * shows the error message; otherwise the credentials are looked up: a match stores the
     * session, clears the form and routes by role, a miss reports invalid credentials.
     */
    method OnSubmit(users: UsersService, emailValid: bool)
      modifies this
      ensures !(emailValid && FormValid(old(email), old(password))) ==>
                authStatus == Some(AuthStatus(false, FORM_ERRORS_MESSAGE)) && touched &&
                email == old(email) && password == old(password) &&
                storedUser == old(storedUser) && navigatedTo == old(navigatedTo)
      ensures emailValid && FormValid(old(email), old(password)) && users.ValidateUser(old(email), old(password)).None? ==>
                authStatus == Some(AuthStatus(false, INVALID_CREDENTIALS_MESSAGE)) &&
                touched == old(touched) && email == old(email) && password == old(password) &&
                storedUser == old(storedUser) && navigatedTo == old(navigatedTo)
      ensures emailValid && FormValid(old(email), old(password)) && users.ValidateUser(old(email), old(password)).Some? ==>
                var u := users.ValidateUser(old(email), old(password)).value;
                authStatus == Some(AuthStatus(true, "Logged in successfully as " + u.role + ".")) &&
                storedUser == Some(u) && email == "" && password == "" && !touched &&
                navigatedTo == Some(RouteForRole(u.role))
    {
      if !(emailValid && FormValid(email, password)) {
        touched := true;
        authStatus := Some(AuthStatus(false, FORM_ERRORS_MESSAGE));
        return;
      }
      var user := users.ValidateUser(email, password);
      if user.Some? {
        authStatus := Some(AuthStatus(true, "Logged in successfully as " + user.value.role + "."));
        storedUser := user;
        email := "";
        password := "";
        touched := false;
        navigatedTo := Some(RouteForRole(user.value.role));
      } else {
        authStatus := Some(AuthStatus(false, INVALID_CREDENTIALS_MESSAGE));
      }
    }
  }
}
