/**
 * `handleRegister` of app/RegisterScreen.tsx: two early-return guards over the three text fields,
 * then one call to the auth table's `register`, whose result picks the alert and the navigation.
 */
module RegisterScreen {
  import opened Wrappers
  import opened Navigation
  import opened AuthContext

  const RequiredMessage := "All fields are required!"
  const MismatchMessage := "Passwords do not match!"
  const ExistsMessage := "Username already exists."

  /** The success alert followed by the redirect to the login screen. */
  const Created := Outcome(Some(Alert("Success", "Account created! Proceed to login.")), Some(LoginScreen))

  /** The guards before `register` is called; `None` means the form gets through to the call. */
  function CheckForm(username: string, password: string, confirmPassword: string): (rejection: Option<Outcome>)
    ensures rejection == Some(ErrorAlert(RequiredMessage))
            <==> username == "" || password == "" || confirmPassword == ""
    ensures rejection == Some(ErrorAlert(MismatchMessage))
            <==> username != "" && password != "" && confirmPassword != "" && password != confirmPassword
    ensures rejection.None? <==> username != "" && password != "" && password == confirmPassword
  {
    if username == "" || password == "" || confirmPassword == "" then
      Some(ErrorAlert(RequiredMessage))
    else if password != confirmPassword then
      Some(ErrorAlert(MismatchMessage))
    else
      None
  }

  /** The whole handler on values: its outcome and the account table afterwards. */
  function RegisterFlow(users: Users, username: string, password: string, confirmPassword: string)
    : (result: (Outcome, Users))
    ensures username == "" || password == "" || confirmPassword == ""
            ==> result == (ErrorAlert(RequiredMessage), users)
    ensures username != "" && password != "" && confirmPassword != "" && password != confirmPassword
            ==> result == (ErrorAlert(MismatchMessage), users)
    ensures CheckForm(username, password, confirmPassword).None? && !Taken(users, username)
            ==> result.0 == Created && result.1 == users[username := password]
    ensures CheckForm(username, password, confirmPassword).None? && Taken(users, username)
            ==> result == (ErrorAlert(ExistsMessage), users)
    ensures result.0.navigation.Some? <==> result.1 != users
    ensures result.1 != users ==> password != "" && result.1 == users[username := password]
  {
    match CheckForm(username, password, confirmPassword)
    case Some(rejection) => (rejection, users)
    case None =>
      var success := !Taken(users, username);
      var after := Registered(users, username, password);
      if success then (Created, after) else (ErrorAlert(ExistsMessage), after)
  }

  /** `handleRegister` against a live auth table: exactly one `register` call when the guards pass. */
  method HandleRegister(auth: AuthProvider, username: string, password: string, confirmPassword: string)
    returns (outcome: Outcome)
    modifies auth
    ensures (outcome, auth.users) == RegisterFlow(old(auth.users), username, password, confirmPassword)
    ensures auth.user == old(auth.user)
  {
    if username == "" || password == "" || confirmPassword == "" {
      return ErrorAlert(RequiredMessage);
    }
    if password != confirmPassword {
      return ErrorAlert(MismatchMessage);
    }
    var success := auth.Register(username, password);
    if success {
      outcome := Created;
    } else {
      outcome := ErrorAlert(ExistsMessage);
    }
  }

  /**
   * The "required" check comes first: an empty confirmation is reported as missing even when it
   * also differs from a non-empty password.
   */
  lemma EmptyConfirmReportsRequired(users: Users, username: string, password: string)
    requires password != ""
    ensures RegisterFlow(users, username, password, "").0 == ErrorAlert(RequiredMessage)
  {
  }

  /** Through this screen the table never receives an empty password. */
  lemma FlowKeepsPasswordsNonEmpty(users: Users, username: string, password: string, confirmPassword: string)
    requires NoEmptyPasswords(users)
    ensures NoEmptyPasswords(RegisterFlow(users, username, password, confirmPassword).1)
  {
  }

  /** A successful registration through the screen lets the same credentials pass `login`. */
  lemma CreatedAccountAuthenticates(users: Users, username: string, password: string)
    requires RegisterFlow(users, username, password, password).0 == Created
    ensures Authenticates(RegisterFlow(users, username, password, password).1, username, password)
  {
  }
}
