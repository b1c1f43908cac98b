/**
 * The observable effects of the screens' button handlers. An `Alert.alert(title, message)` call
 * and a `navigation.navigate(...)` call become parts of a returned `Outcome` value instead of
 * effects; `Route` holds the routes the modelled handlers navigate to.
 */
module Navigation {
  import opened Wrappers

  /** The routes the modelled handlers navigate to, with the parameters they pass. */
  datatype Route = HomeScreen(username: string) | LoginScreen

  datatype Alert = Alert(title: string, message: string)

  /** What one press of a button does: at most one alert and at most one navigation. */
  datatype Outcome = Outcome(alert: Option<Alert>, navigation: Option<Route>)

  /** An error alert with no navigation: the common early-return shape of the handlers. */
  function ErrorAlert(message: string): Outcome {
    Outcome(Some(Alert("Error", message)), None)
  }
}
