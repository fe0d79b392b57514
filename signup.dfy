/**
 * The sign-up page: an ordered chain of checks where the first failure sets the error, and
 * on success the old data is cleared, the account registered, the data reloaded and the
 * dashboard opened, in that order.
 */
module Signup {
  import opened Wrappers
  import opened Text
  import opened Auth
  import MemoryContext

  const PasswordTooShort := "Password must be at least 8 characters"
  const RegistrationFailed := "Registration failed. Please try again."
  const MinPasswordLength := 8

  /** Every field holds more than white space. */
  predicate AllFilled(name: string, email: string, password: string, confirm: string) {
    Trim(name) != [] && Trim(email) != [] && Trim(password) != [] && Trim(confirm) != []
  }

  /**
   * The error the checks of `handleSubmit` set, if any: blank fields first, then a mismatch,
   * then an (untrimmed) password shorter than eight characters.
   */
  function FirstError(name: string, email: string, password: string, confirm: string): (r: Option<string>)
    ensures r.None? <==>
      AllFilled(name, email, password, confirm) && password == confirm && |password| >= MinPasswordLength
    ensures !AllFilled(name, email, password, confirm) ==> r == Some(FillAllFields)
    ensures AllFilled(name, email, password, confirm) && password != confirm ==> r == Some(PasswordsDiffer)
    ensures (AllFilled(name, email, password, confirm) && password == confirm &&
             |password| < MinPasswordLength) ==> r == Some(PasswordTooShort)
  {
    if !AllFilled(name, email, password, confirm) then Some(FillAllFields)
    else if password != confirm then Some(PasswordsDiffer)
    else if |password| < MinPasswordLength then Some(PasswordTooShort)
    else None
  }

  /** A password of white space only is caught as a blank field, never by the length check. */
  lemma BlankPasswordIsUnfilled(name: string, email: string, password: string)
    requires Trim(password) == []
    ensures FirstError(name, email, password, password) == Some(FillAllFields)
  {
  }

  /** The effects of a submit that passes the checks, given the outcome of `register`. */
  function AcceptedEffects(name: string, email: string, password: string, register: Outcome<()>): seq<Effect> {
    [ClearAllData, Register(Trim(name), Trim(email), password)] +
    (if register.Success? then [RefreshData, Navigate(DashboardPage)] else [])
  }

  /**
   * The old data is cleared before registering with the trimmed name and email; the reload
   * and then the move to the dashboard follow exactly when registration succeeds.
   */
  lemma AcceptedEffectsOrder(name: string, email: string, password: string, register: Outcome<()>)
    ensures var r := AcceptedEffects(name, email, password, register);
      |r| >= 2 && r[0] == ClearAllData && r[1] == Register(Trim(name), Trim(email), password)
    ensures var r := AcceptedEffects(name, email, password, register);
      register.Success? <==> Navigate(DashboardPage) in r
    ensures var r := AcceptedEffects(name, email, password, register);
      register.Success? ==> r[2..] == [RefreshData, Navigate(DashboardPage)]
    ensures register.Failure? ==> |AcceptedEffects(name, email, password, register)| == 2
  {
    var r := AcceptedEffects(name, email, password, register);
    if register.Success? {
      assert r[3] == Navigate(DashboardPage);
    } else {
      assert r == [ClearAllData, Register(Trim(name), Trim(email), password)];
    }
  }

  class SignupPage {
    var name: string
    var email: string
    var password: string
    var confirmPassword: string
    var error: string
    var loading: bool
    /** The effects of every submit so far. */
    var effects: seq<Effect>

    constructor ()
      ensures name == "" && email == "" && password == "" && confirmPassword == ""
      ensures error == "" && !loading && effects == []
    {
      name, email, password, confirmPassword := "", "", "", "";
      error, loading, effects := "", false, [];
    }

    /**
     * `handleSubmit`: a failed check sets its error and touches nothing else; a passing form
     * clears the store's data, registers with the trimmed name and email, and on success
     * reloads and navigates; on failure it shows the server's detail or the default text.
     * Either way `loading` ends false. `register` is the outcome of the registration request.
     */
    method Submit(store: MemoryContext.MemoryStore, register: Outcome<()>)
      modifies this, store
      ensures var e := FirstError(old(name), old(email), old(password), old(confirmPassword));
        e.Some? ==> error == e.value && loading == old(loading) && effects == old(effects) && unchanged(store)
      ensures var e := FirstError(old(name), old(email), old(password), old(confirmPassword));
        e.None? ==>
          effects == old(effects) + AcceptedEffects(old(name), old(email), old(password), register) &&
          !loading && store.ClearedFrom(old(store.cache), old(store.Key())) &&
          store.darkMode == old(store.darkMode) && store.token == old(store.token) &&
          error == (if register.Success? then "" else ErrorText(register.error, RegistrationFailed))
      ensures name == old(name) && email == old(email)
      ensures password == old(password) && confirmPassword == old(confirmPassword)
    {
      error := "";
      var e := FirstError(name, email, password, confirmPassword);
      if e.Some? {
        error := e.value;
      } else {
        Accept(store, register);
      }
    }

    /** The part of `handleSubmit` after the checks pass. */
    method Accept(store: MemoryContext.MemoryStore, register: Outcome<()>)
      modifies this, store
      ensures effects == old(effects) + AcceptedEffects(name, email, password, register)
      ensures !loading && store.ClearedFrom(old(store.cache), old(store.Key()))
      ensures store.darkMode == old(store.darkMode) && store.token == old(store.token)
      ensures error == (if register.Success? then old(error) else ErrorText(register.error, RegistrationFailed))
      ensures name == old(name) && email == old(email)
      ensures password == old(password) && confirmPassword == old(confirmPassword)
    {
      var added := AcceptedEffects(name, email, password, register);
      var shown := if register.Failure? then ErrorText(register.error, RegistrationFailed) else error;
      loading := true;
      store.ClearAllData();
      effects, error, loading := effects + added, shown, false;
    }
  }
}
