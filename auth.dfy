/**
 * What the sign-up, login, forgot-password and reset-password pages share: the visible
 * effects they produce in order, and how a failed request becomes the error text.
 */
module Auth {
  import opened Wrappers
  import opened Types

  /** A failed request: `err.response?.data?.detail`, absent when there is no response or no detail. */
  datatype RequestError = RequestError(detail: Option<string>)

  /** The outcome of a request the page awaits. */
  type Outcome<T> = Result<T, RequestError>

  /** The effects a submit has outside the page's own fields, in the order they happen. */
  datatype Effect =
    | ClearAllData
    | Register(name: string, email: string, password: string)
    | Login(email: string, password: string)
    | RefreshData
    | Navigate(to: Route)
    | ForgotPassword(email: string)
    | ResetPassword(token: string, password: string)
    | Alert(text: string)

  /** The pages a form navigates to: `/dashboard` and `/login`. */
  datatype Route = DashboardPage | LoginPage

  const FillAllFields := "Please fill in all fields"
  const PasswordsDiffer := "Passwords do not match"

  /** `err.response?.data?.detail || fallback`. */
  function ErrorText(e: RequestError, fallback: string): (r: string)
    ensures TruthyString(e.detail) ==> r == e.detail.value
    ensures !TruthyString(e.detail) ==> r == fallback
  {
    StringOr(e.detail, fallback)
  }

  /** An error thrown without a response, as `forgotPassword` and `resetPassword` throw, shows the fallback. */
  lemma ThrownErrorShowsFallback(fallback: string)
    ensures ErrorText(RequestError(None), fallback) == fallback
  {
  }
}
