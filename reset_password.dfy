/**
 * The reset-password page: the token from the link is checked for presence when the page
 * opens, the new password is checked in its own order (blank, short, mismatch, then the
 * token again), a strength bar and match indicators follow the typed text, and a failed
 * reset marks the token invalid.
 */
module ResetPassword {
  import opened Wrappers
  import opened Text
  import opened Types
  import opened Auth
  import Api
  import Signup

  const MissingToken := "Invalid or missing reset token"
  const PasswordTooShort := "Password must be at least 8 characters long"
  const InvalidToken := "Invalid reset token"
  const ResetFailed := "Failed to reset password. Token may be invalid or expired."
  const ResetDone := "Password reset successful! You can now login with your new password."
  const MinPasswordLength := 8
  /** The length from which the strength bar shows `strong`. */
  const StrongLength := 12

  /** Both fields hold more than white space. */
  predicate BothFilled(password: string, confirm: string) {
    Trim(password) != [] && Trim(confirm) != []
  }

  /**
   * The error the checks of `handleSubmit` set, if any: blank fields, then a password
   * shorter than eight characters, then a mismatch, then a missing token.
   */
  function FirstError(password: string, confirm: string, token: Option<string>): (r: Option<string>)
    ensures r.None? <==>
      BothFilled(password, confirm) && |password| >= MinPasswordLength && password == confirm &&
      TruthyString(token)
    ensures !BothFilled(password, confirm) ==> r == Some(FillAllFields)
    ensures BothFilled(password, confirm) && |password| < MinPasswordLength ==> r == Some(PasswordTooShort)
    ensures (BothFilled(password, confirm) && |password| >= MinPasswordLength &&
             password != confirm) ==> r == Some(PasswordsDiffer)
    ensures (BothFilled(password, confirm) && |password| >= MinPasswordLength &&
             password == confirm && !TruthyString(token)) ==> r == Some(InvalidToken)
  {
    if !BothFilled(password, confirm) then Some(FillAllFields)
    else if |password| < MinPasswordLength then Some(PasswordTooShort)
    else if password != confirm then Some(PasswordsDiffer)
    else if !TruthyString(token) then Some(InvalidToken)
    else None
  }

  /**
   * The two pages check length and mismatch in opposite orders: a short password that
   * differs from its confirmation is reported as a mismatch on sign-up and as too short here.
   */
  lemma OrderDiffersFromSignup(name: string, email: string, password: string, confirm: string,
                               token: Option<string>)
    requires Signup.AllFilled(name, email, password, confirm)
    requires password != confirm && |password| < MinPasswordLength
    ensures Signup.FirstError(name, email, password, confirm) == Some(PasswordsDiffer)
    ensures FirstError(password, confirm, token) == Some(PasswordTooShort)
  {
  }

  /** The class of the strength bar. */
  datatype Strength = Weak | Medium | Strong

  /** The strength bar: absent for an empty password, then by length below 8, below 12, and above. */
  function StrengthOf(password: string): (r: Option<Strength>)
    ensures r.None? <==> password == []
  {
    if |password| == 0 then None
    else if |password| < MinPasswordLength then Some(Weak)
    else if |password| < StrongLength then Some(Medium)
    else Some(Strong)
  }

  /**
   * The strength classes split the non-empty passwords by length into three consecutive
   * bands; a longer password is never weaker.
   */
  lemma StrengthBands(password: string, longer: string)
    requires |password| <= |longer|
    ensures StrengthOf(password) == Some(Weak) <==> 0 < |password| < 8
    ensures StrengthOf(password) == Some(Medium) <==> 8 <= |password| < 12
    ensures StrengthOf(password) == Some(Strong) <==> 12 <= |password|
    ensures StrengthOf(password) == Some(Strong) ==> StrengthOf(longer) == Some(Strong)
    ensures StrengthOf(password) == Some(Medium) ==> StrengthOf(longer) != Some(Weak)
  {
  }

  /** For filled fields, a `weak` bar is exactly the case the length check rejects. */
  lemma WeakBarMeansTooShort(password: string, confirm: string, token: Option<string>)
    requires BothFilled(password, confirm)
    ensures StrengthOf(password) == Some(Weak) <==> FirstError(password, confirm, token) == Some(PasswordTooShort)
  {
  }

  /** "Passwords do not match" under the confirmation field. */
  predicate ShowsMismatch(password: string, confirm: string) {
    |confirm| > 0 && password != confirm
  }

  /** "Passwords match" under the confirmation field. */
  predicate ShowsMatch(password: string, confirm: string) {
    |confirm| > 0 && password == confirm && |password| >= MinPasswordLength
  }

  /**
   * The two indicators are never shown together. With a filled password and a token in the
   * link, "Passwords match" is shown exactly when the submit would pass, and a long enough
   * password under "Passwords do not match" fails with the mismatch error.
   */
  lemma IndicatorsPredictSubmit(password: string, confirm: string, token: Option<string>)
    ensures !(ShowsMismatch(password, confirm) && ShowsMatch(password, confirm))
    ensures Trim(password) != [] && TruthyString(token) ==>
      (ShowsMatch(password, confirm) <==> FirstError(password, confirm, token).None?)
    ensures (BothFilled(password, confirm) && |password| >= MinPasswordLength &&
             ShowsMismatch(password, confirm)) ==> FirstError(password, confirm, token) == Some(PasswordsDiffer)
  {
    if Trim(password) != [] && TruthyString(token) && ShowsMatch(password, confirm) {
      assert confirm == password;
    }
  }

  /** What the page renders for a token state: a spinner, the invalid-link card, or the form. */
  datatype Screen = Validating | TokenRejected | ResetForm

  function ScreenOf(tokenValid: Option<bool>): (s: Screen)
    ensures s == Validating <==> tokenValid.None?
    ensures s == TokenRejected <==> tokenValid == Some(false)
    ensures s == ResetForm <==> tokenValid == Some(true)
  {
    match tokenValid
    case None => Validating
    case Some(valid) => if valid then ResetForm else TokenRejected
  }

  /** The effects of a submit that passes the checks, given the outcome of the reset request. */
  function AcceptedEffects(token: string, password: string, response: Outcome<()>): seq<Effect> {
    [ResetPassword(token, password)] +
    (if response.Success? then [Alert(ResetDone), Navigate(LoginPage)] else [])
  }

  /**
   * The reset is requested with the link's token and the new password as typed; the success
   * alert and then the move to the login page follow exactly when it succeeds.
   */
  lemma AcceptedEffectsOrder(token: string, password: string, response: Outcome<()>)
    ensures var r := AcceptedEffects(token, password, response);
      |r| >= 1 && r[0] == ResetPassword(token, password)
    ensures var r := AcceptedEffects(token, password, response);
      response.Success? <==> Navigate(LoginPage) in r
    ensures var r := AcceptedEffects(token, password, response);
      response.Success? ==> r[1..] == [Alert(ResetDone), Navigate(LoginPage)]
    ensures response.Failure? ==> AcceptedEffects(token, password, response) == [ResetPassword(token, password)]
  {
    var r := AcceptedEffects(token, password, response);
    if response.Success? {
      assert r[2] == Navigate(LoginPage);
    } else {
      assert r == [ResetPassword(token, password)];
    }
  }

  class ResetPasswordPage {
    /** The `token` query parameter of the link; `None` when absent. */
    const token: Option<string>
    var password: string
    var confirmPassword: string
    var error: string
    var isLoading: bool
    /** `null` until the token has been looked at. */
    var tokenValid: Option<bool>
    /** The effects of every submit so far. */
    var effects: seq<Effect>

    constructor (token: Option<string>)
      ensures this.token == token && tokenValid == None && ScreenOf(tokenValid) == Validating
      ensures password == "" && confirmPassword == "" && error == "" && !isLoading && effects == []
    {
      this.token := token;
      password, confirmPassword, error, isLoading := "", "", "", false;
      tokenValid, effects := None, [];
    }

    /** The effect run on opening: an absent or empty token is rejected with its message, any other accepted. */
    method ValidateToken()
      modifies this
      ensures !TruthyString(token) ==> tokenValid == Some(false) && error == MissingToken
      ensures TruthyString(token) ==> tokenValid == Some(true) && error == old(error)
      ensures ScreenOf(tokenValid) != Validating
      ensures password == old(password) && confirmPassword == old(confirmPassword)
      ensures isLoading == old(isLoading) && effects == old(effects)
    {
      if !TruthyString(token) {
        tokenValid := Some(false);
        error := MissingToken;
        return;
      }
      tokenValid := Some(true);
    }

    /**
     * `handleSubmit`: a failed check sets its error and nothing else; otherwise the reset is
     * requested, and on success the page alerts and goes to the login page, while a failure
     * shows the server's detail or the default text and marks the token invalid. `isLoading`
     * ends false after a request. `response` is the outcome of the reset request.
     */
    method Submit(response: Outcome<()>)
      modifies this
      ensures var e := FirstError(old(password), old(confirmPassword), token);
        e.Some? ==> error == e.value && tokenValid == old(tokenValid) &&
                    isLoading == old(isLoading) && effects == old(effects)
      ensures var e := FirstError(old(password), old(confirmPassword), token);
        e.None? ==>
          effects == old(effects) + AcceptedEffects(token.value, old(password), response) && !isLoading &&
          error == (if response.Success? then "" else ErrorText(response.error, ResetFailed)) &&
          tokenValid == (if response.Success? then old(tokenValid) else Some(false))
      ensures FirstError(old(password), old(confirmPassword), token).None? && response.Failure? ==>
        ScreenOf(tokenValid) == TokenRejected
      ensures password == old(password) && confirmPassword == old(confirmPassword)
    {
      error := "";
      var e := FirstError(password, confirmPassword, token);
      if e.Some? {
        error := e.value;
      } else {
        Accept(response);
      }
    }

    /** The part of `handleSubmit` after the checks pass. */
    method Accept(response: Outcome<()>)
      requires token.Some?
      modifies this
      ensures effects == old(effects) + AcceptedEffects(token.value, password, response) && !isLoading
      ensures error == (if response.Success? then old(error) else ErrorText(response.error, ResetFailed))
      ensures tokenValid == (if response.Success? then old(tokenValid) else Some(false))
      ensures password == old(password) && confirmPassword == old(confirmPassword)
    {
      var added := AcceptedEffects(token.value, password, response);
      var shown := if response.Success? then error else ErrorText(response.error, ResetFailed);
      var valid := if response.Success? then tokenValid else Some(false);
      isLoading := true;
      effects, error, tokenValid, isLoading := effects + added, shown, valid, false;
    }

    /**
     * A submit against the client as it stands, whose `resetPassword` always throws without
     * a response: every submit that passes the checks ends on the invalid-link card with the
     * default text.
     */
    method SubmitToClient()
      modifies this
      ensures var e := FirstError(old(password), old(confirmPassword), token);
        e.Some? ==> error == e.value && tokenValid == old(tokenValid) && effects == old(effects)
      ensures var e := FirstError(old(password), old(confirmPassword), token);
        e.None? ==> error == ResetFailed && tokenValid == Some(false) && !isLoading &&
                    ScreenOf(tokenValid) == TokenRejected &&
                    effects == old(effects) + [ResetPassword(token.value, password)]
      ensures password == old(password) && confirmPassword == old(confirmPassword)
    {
      var response := Api.ResetPassword(if token.Some? then token.value else "", password);
      Api.ResetFlowUnavailable(if token.Some? then token.value else "", password, "");
      Submit(response);
      AcceptedEffectsOrder(if token.Some? then token.value else "", password, response);
    }
  }
}
