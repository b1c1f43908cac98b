/**
 * `handleLogin` of app/LoginScreen.tsx: a mock check of two strings against the hard-coded pair
 * admin / 1234. It takes no account table: registered accounts are never consulted.
 */
module LoginScreen {
  import opened Wrappers
  import opened Navigation
  import opened AuthContext

  const RequiredMessage := "Username and Password are required!"
  const InvalidMessage := "Invalid credentials!"

  function HandleLogin(username: string, password: string): (outcome: Outcome)
    ensures username == "" || password == "" ==> outcome == ErrorAlert(RequiredMessage)
    ensures outcome.navigation.Some? <==> username == "admin" && password == "1234"
    ensures outcome.navigation.Some? ==> outcome == Outcome(None, Some(HomeScreen("admin")))
    ensures username != "" && password != "" && !(username == "admin" && password == "1234")
            ==> outcome == ErrorAlert(InvalidMessage)
  {
    if username == "" || password == "" then
      ErrorAlert(RequiredMessage)
    else if username == "admin" && password == "1234" then
      Outcome(None, Some(HomeScreen("admin")))
    else
      ErrorAlert(InvalidMessage)
  }

  /**
   * The screen and the auth table disagree in both directions: an account with a non-empty name
   * that `login` would accept is refused here, and admin / 1234 gets in with no account at all.
   */
  lemma ScreenIgnoresAccounts(users: Users, username: string, password: string)
    requires Authenticates(users, username, password) && username != ""
    requires username != "admin" || password != "1234"
    ensures HandleLogin(username, password) == ErrorAlert(InvalidMessage)
    ensures !Authenticates(map[], "admin", "1234")
    ensures HandleLogin("admin", "1234").navigation == Some(HomeScreen("admin"))
  {
  }
}
