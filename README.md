# QuizBuzz rules, modelled in Dafny

QuizBuzz is a React Native trivia client. Apart from screens and network plumbing it holds a few
small rules, and this project models them and proves what they guarantee:

- **Account table** (`app/context/AuthContext.tsx`): `AuthContext.AuthProvider` is a class with a
  `users` map from username to password and a `user` slot, changed by `Register`, `Login` and
  `Logout`. JavaScript truthiness of `users[username]` is kept: an entry with the empty password
  behaves as if absent (`Taken`). The pure function `Registered` gives the table after a
  registration. Module `AuthAsWritten` models the lookup through the object's prototype chain
  (see Findings).
- **Register form** (`app/RegisterScreen.tsx`): `CheckForm` holds the two guards, in order.
  `RegisterFlow` is the handler on values. The method `HandleRegister` runs it against a live
  `AuthProvider` and calls `Register` exactly once when the guards pass. Alerts and navigation
  are returned as `Navigation.Outcome` values.
- **Login form** (`app/LoginScreen.tsx`): `HandleLogin` is the mock check against admin / 1234.
  It takes no account table.
- **Home screen** (`app/HomeScreen.tsx`): the `'Guest'` default (`DisplayName`) and the category
  filter (`FilteredCategories`, `FilterByName`). Matching is case-insensitive substring matching
  (`JsString.ToLowerCase`, `JsString.Includes`).
- **Answer buttons** (`components/ui/QuestionCard.tsx`): `Render` gives one button per option,
  with its style (plain / correct / wrong) and its `disabled` flag. `Press` gives what
  `onSelect` receives.
- **Result message** (`app/ResultScreen.tsx`): the parameter defaults and the three tiers of
  `score / total`. The ratio is an exact `real`. A zero total is modelled as JavaScript evaluates
  it: a positive score gives +Infinity, 0 / 0 gives NaN and a negative score gives -Infinity.
- **Password visibility** (`components/ui/CustomInput.tsx`): the class `TextField` has one
  mutable boolean `isVisible`, a `Toggle` method and the derived masking and icon.

## Model

| member | source | states |
|---|---|---|
| `AuthContext.Taken` | app/context/AuthContext.tsx:30 | the intended own-key reading of `users[username]`'s truthiness: true exactly for an own entry holding a non-empty password, so an entry with the empty password is falsy (the code as written, which also sees Object.prototype, is `AuthAsWritten.Lookup`) |
| `AuthContext.Authenticates` | app/context/AuthContext.tsx:37 | login's test holds exactly when the entry is truthy and equals the password, which is then non-empty |
| `AuthContext.Registered` | app/context/AuthContext.tsx:29-32 | a name with a truthy entry leaves the table unchanged; otherwise the name maps to the new password; every other name keeps its entry |
| `AuthContext.AuthProvider.constructor` | app/context/AuthContext.tsx:25-26 | no current user and an empty table |
| `AuthContext.AuthProvider.Register` | app/context/AuthContext.tsx:29-33 | returns true exactly when the name has no truthy entry; the table becomes `Registered(old table)`; the current user never changes |
| `AuthContext.AuthProvider.Login` | app/context/AuthContext.tsx:36-42 | returns true exactly when the entry is non-empty and equals the password; on success the user becomes the name; the table never changes and a failure changes nothing |
| `AuthContext.AuthProvider.Logout` | app/context/AuthContext.tsx:45 | the user becomes null and the table is unchanged |
| `AuthContext.RegisterThenAuthenticate` | app/context/AuthContext.tsx:29-41 | after registering a free name, login with that password succeeds exactly when the password is non-empty |
| `AuthContext.EmptyPasswordEntryActsAbsent` | app/context/AuthContext.tsx:30-37 | a name stored with the empty password counts as free, is overwritten by a new registration, and no password logs in with it |
| `AuthContext.RegisterTwice` | app/context/AuthContext.tsx:30-31 | after a registration with a non-empty password the name is taken, and a second registration changes nothing |
| `AuthContext.RegisterKeepsPasswordsNonEmpty` | app/context/AuthContext.tsx:31 | registering a non-empty password keeps "every stored password is non-empty" |
| `AuthContext.TakenIsMembership` | app/context/AuthContext.tsx:30-37 | under that invariant the truthiness test is key membership and login is a key lookup |
| `AuthAsWritten.Lookup` | app/context/AuthContext.tsx:30 | `users[username]` is the own entry when there is one; otherwise an inherited member for the twelve Object.prototype names, the Annex B accessor methods included; otherwise undefined |
| `AuthAsWritten.RegisterAsWritten` | app/context/AuthContext.tsx:29-33 | `register` as written refuses every Object.prototype name that has no own entry and leaves the table unchanged; on success the table is the old one with the name mapped to the password; a refusal changes nothing |
| `AuthAsWritten.LoginAsWritten` | app/context/AuthContext.tsx:37 | the login test as written succeeds only for an own entry equal to the given, non-empty password |
| `AuthAsWritten.RegisterAsWrittenAgrees` | app/context/AuthContext.tsx:29-33 | for every name outside Object.prototype, the code as written agrees with `Taken` and `Registered` |
| `AuthAsWritten.LoginAsWrittenAgrees` | app/context/AuthContext.tsx:37 | the login test as written equals `Authenticates` for every name, inherited ones included |
| `AuthAsWritten.ConstructorIsRefused` | app/context/AuthContext.tsx:30 | on an empty table, registering "constructor" is refused as written, but the own-key test accepts it |
| `RegisterScreen.CheckForm` | app/RegisterScreen.tsx:29-37 | "All fields are required!" exactly when some field is empty; "Passwords do not match!" exactly when all are filled and the passwords differ; otherwise the form passes |
| `RegisterScreen.RegisterFlow` | app/RegisterScreen.tsx:28-46 | guard failures leave the table unchanged; a free name gives the success alert plus navigation to LoginScreen and stores the password; a taken name gives "Username already exists." with no change; it navigates exactly when the table changes, and it only ever stores a non-empty password |
| `RegisterScreen.HandleRegister` | app/RegisterScreen.tsx:28-46 | the outcome and the new table are `RegisterFlow` of the old table, through at most one `Register` call; the current user is unchanged |
| `RegisterScreen.EmptyConfirmReportsRequired` | app/RegisterScreen.tsx:29-37 | an empty confirmation with a non-empty password reports "required", not "do not match" |
| `RegisterScreen.FlowKeepsPasswordsNonEmpty` | app/RegisterScreen.tsx:29-39 | through this screen the table never receives an empty password |
| `RegisterScreen.CreatedAccountAuthenticates` | app/RegisterScreen.tsx:39-42 | after a successful registration the same credentials pass the table's login test |
| `LoginScreen.HandleLogin` | app/LoginScreen.tsx:25-38 | an empty field gives "Username and Password are required!"; it navigates exactly for admin / 1234, to HomeScreen with username 'admin' and no alert; every other filled pair gives "Invalid credentials!" |
| `LoginScreen.ScreenIgnoresAccounts` | app/LoginScreen.tsx:25-38 | an account the table would accept (non-empty name, not admin / 1234) is refused here, and admin / 1234 navigates although the empty table holds no such account |
| `HomeScreen.DisplayName` | app/HomeScreen.tsx:44 | a present, non-empty username is shown as given; a missing or empty one shows "Guest"; the result is never empty |
| `JsString.ToLowerCase` | app/HomeScreen.tsx:69 | same length; each ASCII upper-case letter becomes its lower-case letter (code point + 32); all other characters unchanged |
| `JsString.ToLowerCaseIdempotent` | app/HomeScreen.tsx:69 | lower-casing twice equals lower-casing once |
| `JsString.Includes` | app/HomeScreen.tsx:69 | the empty string is always included; an included string is no longer than the text |
| `JsString.IncludesIffOccurs` | app/HomeScreen.tsx:69 | `Includes` holds exactly when the substring occurs at some index |
| `HomeScreen.FilteredCategories` | app/HomeScreen.tsx:65-70 | with 'All' (compared case-sensitively) the list is unchanged; otherwise it holds exactly the matching categories; it is never longer than the input |
| `HomeScreen.FilterByName` | app/HomeScreen.tsx:68-70 | the result is no longer than the input, and holds exactly the input's categories whose lower-cased name includes the lower-cased filter |
| `HomeScreen.FilteredIsSubsequence` | app/HomeScreen.tsx:65-70 | with 'All' the list is returned unchanged; with any filter the result is a subsequence of the input, so the original order is kept |
| `HomeScreen.FilterIsSubsequence` | app/HomeScreen.tsx:68-70 | the filtered list is a subsequence of the input |
| `HomeScreen.FilterKeepsEveryMatch` | app/HomeScreen.tsx:68-70 | each matching category appears exactly as often as in the input; non-matching ones do not appear |
| `HomeScreen.FilterIdempotent` | app/HomeScreen.tsx:65-70 | applying the same filter to the filtered list changes nothing, 'All' included |
| `HomeScreen.FilterByNameIdempotent` | app/HomeScreen.tsx:68-70 | the filter step is idempotent |
| `HomeScreen.FilterIgnoresFilterCase` | app/HomeScreen.tsx:69 | two filter strings equal after lower-casing select the same list |
| `HomeScreen.MatchIgnoresCase` | app/HomeScreen.tsx:69 | whether a category matches is unchanged by lower-casing its name or the filter |
| `QuestionCard.StyleOf` | components/ui/QuestionCard.tsx:25-31 | plain exactly when the option is not the selection; correct exactly when selected and equal to the correct answer; wrong exactly when selected and different |
| `QuestionCard.Locked` | components/ui/QuestionCard.tsx:38 | locked exactly when the selection is present and non-empty |
| `QuestionCard.Render` | components/ui/QuestionCard.tsx:23-38 | one button per option, in order, carrying that option; correct style exactly when selected and equal to the correct answer; wrong style exactly when selected and different; disabled exactly when locked |
| `QuestionCard.Press` | components/ui/QuestionCard.tsx:37-38 | pressing button i hands over that button's option exactly when the button is enabled |
| `QuestionCard.NothingSelected` | components/ui/QuestionCard.tsx:25-38 | with no selection every button is plain and enabled, and pressing it selects its own option |
| `QuestionCard.LockedAfterChoice` | components/ui/QuestionCard.tsx:38 | after a non-empty choice no button press reaches `onSelect` |
| `QuestionCard.UnselectedIsPlain` | components/ui/QuestionCard.tsx:25-31 | an unselected option is plain, even the correct one |
| `QuestionCard.OnlySelectionHighlighted` | components/ui/QuestionCard.tsx:25-31 | with distinct options only the chosen one is highlighted: green if correct, red otherwise |
| `QuestionCard.EmptyChoiceStaysUnlocked` | components/ui/QuestionCard.tsx:25-38 | choosing an empty option highlights it, leaves every button enabled, and pressing it again hands over the empty string |
| `ResultScreen.ScoreAndTotal` | app/ResultScreen.tsx:20 | missing parameters default to score 0 and total 10, each independently |
| `ResultScreen.Divide` | app/ResultScreen.tsx:30 | for a non-zero total the quotient times the total is the score |
| `ResultScreen.TierOf` | app/ResultScreen.tsx:30-34 | for a positive total: ratio >= 0.7 gives "Great job!", 0.4 <= ratio < 0.7 gives "Good effort!", ratio < 0.4 gives "Keep practicing!"; with a zero total a positive score gives "Great job!" (+Infinity) and every other score "Keep practicing!" (NaN, -Infinity) |
| `ResultScreen.TierByCrossMultiplication` | app/ResultScreen.tsx:30-34 | the same three tiers as integer inequalities 10·score >= 7·total and 10·score >= 4·total |
| `ResultScreen.TierMonotone` | app/ResultScreen.tsx:30-34 | for a fixed positive total a higher score never gives a lower tier |
| `ResultScreen.ResultMessage` | app/ResultScreen.tsx:20-34 | the message is that of `TierOf` on the score and total after the defaults, zero total included; with a positive total it is "Great job!" exactly when 10·score >= 7·total, "Good effort!" exactly when 4·total <= 10·score < 7·total, and "Keep practicing!" exactly when 10·score < 4·total |
| `ResultScreen.DefaultsKeepPracticing` | app/ResultScreen.tsx:20-34 | with no parameters the screen shows 0 / 10 and "Keep practicing!" |
| `CustomInput.TextField.constructor` | components/ui/CustomInput.tsx:19-26 | props default to false; the field starts visible exactly when not `secureTextEntry`, so it starts visible with default props |
| `CustomInput.TextField.Masked` | components/ui/CustomInput.tsx:35 | the text is masked exactly for a hidden password input: never for a non-password input, whatever `secureTextEntry` says, and never while visible |
| `CustomInput.TextField.ToggleIcon` | components/ui/CustomInput.tsx:39-45 | the icon exists exactly for password inputs; it is 'visibility' while visible and 'visibility-off' otherwise, so 'visibility-off' exactly when the text is masked |
| `CustomInput.TextField.Toggle` | components/ui/CustomInput.tsx:41 | flips `isVisible`, and with it the masking of a password input |
| `CustomInput.ToggleTwice` | components/ui/CustomInput.tsx:41 | two presses restore the visibility and the masking |

## Left out

- Network fetches: the category request in app/HomeScreen.tsx, the question request in app/QuizDetailScreen.tsx and their loading flags are I/O. The category list is a parameter of the filter.
- app/QuizDetailScreen.tsx otherwise only renders the fetched question texts. It has no answer lock, scoring or advance to model.
- utils/decodeHTML.ts hands its string to the browser DOM. Its result is not defined in terms the model can state.
- app/_layout.tsx is splash-screen timing, font loading and asynchronous effects.
- The `useAuth` provider check (app/context/AuthContext.tsx:16-19) is React context plumbing.
- React scheduling is not modelled. `setUsers` is batched, so two `register` calls in one render both see the old table. The model applies each update before the next call.
- Purely presentational code is not modelled: CategoryCard, CustomButton, ScoreButton, the not-found screen, the style sheets and the unused `categoryImages` map.
- The remaining navigation links are wiring, not rules: the Login/Register buttons and links, the filter buttons that set `selectedFilter`, and the result screen's "Back to Home" button.
- `ResultScreen.TierOf` uses the exact ratio. IEEE rounding of `score / total` next to the 0.7 and 0.4 thresholds is not modelled. A ratio just below a threshold can round onto the double nearest 0.7 only for totals above about 10^15, and onto the one nearest 0.4 only for totals above about 3·10^16. Scores and totals are integers; other numbers a route could carry are not modelled.
- `JsString.ToLowerCase` lower-cases ASCII letters only. Unicode case mapping is not modelled.
- Route parameters are typed values. A non-string `username` or a non-number `score` is not modelled.

## Findings

| source | as written | input that shows it | evidently intended | confidence | as-written member | corrected member |
|---|---|---|---|---|---|---|
| app/context/AuthContext.tsx:30 | the existence test reads `users[username]` on a plain object, so names inherited from Object.prototype ("constructor", "toString", "valueOf", ...) are truthy | `register("constructor", "secret")` on an empty table returns false, and the register screen shows "Username already exists." | only names with an own entry holding a non-empty password count as existing | high; not executed | `AuthAsWritten.ConstructorIsRefused` | `AuthContext.AuthProvider.Register` |
