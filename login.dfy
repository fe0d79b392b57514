/**
 * The login page: both fields must hold more than white space; then the old data is
 * cleared, the credentials are sent as typed, and on success the data is reloaded and the
 * dashboard opened.
 */
module Login {
  import opened Wrappers
  import opened Text
  import opened Auth
  import MemoryContext

  const InvalidCredentials := "Invalid email or password"

  /** Both fields hold more than white space. */
  predicate BothFilled(email: string, password: string) {
    Trim(email) != [] && Trim(password) != []
  }

  /** The error the check of `handleSubmit` sets, if any. */
  function FirstError(email: string, password: string): (r: Option<string>)
    ensures r.None? <==> BothFilled(email, password)
    ensures r.Some? ==> r.value == FillAllFields
  {
    if !BothFilled(email, password) then Some(FillAllFields) else None
  }

  /** The effects of a submit that passes the check, given the outcome of `login`. */
  function AcceptedEffects(email: string, password: string, login: Outcome<()>): seq<Effect> {
    [ClearAllData, Login(email, password)] +
    (if login.Success? then [RefreshData, Navigate(DashboardPage)] else [])
  }

  /**
   * The old data is cleared before the login request, which carries the email and password
   * untrimmed; the reload and then the move to the dashboard follow exactly on success.
   */
  lemma AcceptedEffectsOrder(email: string, password: string, login: Outcome<()>)
    ensures var r := AcceptedEffects(email, password, login);
      |r| >= 2 && r[0] == ClearAllData && r[1] == Login(email, password)
    ensures var r := AcceptedEffects(email, password, login);
      login.Success? <==> Navigate(DashboardPage) in r
    ensures var r := AcceptedEffects(email, password, login);
      login.Success? ==> r[2..] == [RefreshData, Navigate(DashboardPage)]
    ensures login.Failure? ==> |AcceptedEffects(email, password, login)| == 2
  {
    var r := AcceptedEffects(email, password, login);
    if login.Success? {
      assert r[3] == Navigate(DashboardPage);
    } else {
      assert r == [ClearAllData, Login(email, password)];
    }
  }

  class LoginPage {
    var email: string
    var password: string
    var error: string
    var loading: bool
    /** The effects of every submit so far. */
    var effects: seq<Effect>

    constructor ()
      ensures email == "" && password == "" && error == "" && !loading && effects == []
    {
      email, password, error, loading, effects := "", "", "", false, [];
    }

    /**
     * `handleSubmit`: a blank field sets the error and nothing else happens; otherwise the
     * request is made (see `Accept`). `login` is the outcome of the login request.
     */
    method Submit(store: MemoryContext.MemoryStore, login: Outcome<()>)
      modifies this, store
      ensures var e := FirstError(old(email), old(password));
        e.Some? ==> error == e.value && loading == old(loading) && effects == old(effects) && unchanged(store)
      ensures var e := FirstError(old(email), old(password));
        e.None? ==>
          effects == old(effects) + AcceptedEffects(old(email), old(password), login) &&
          !loading && store.ClearedFrom(old(store.cache), old(store.Key())) &&
          store.darkMode == old(store.darkMode) && store.token == old(store.token) &&
          error == (if login.Success? then "" else ErrorText(login.error, InvalidCredentials))
      ensures email == old(email) && password == old(password)
    {
      var e := FirstError(email, password);
      if e.Some? {
        error := e.value;
      } else {
        error := "";
        Accept(store, login);
      }
    }

    /** The part of `handleSubmit` after the check passes; `loading` ends false either way. */
    method Accept(store: MemoryContext.MemoryStore, login: Outcome<()>)
      modifies this, store
      ensures effects == old(effects) + AcceptedEffects(email, password, login)
      ensures !loading && store.ClearedFrom(old(store.cache), old(store.Key()))
      ensures store.darkMode == old(store.darkMode) && store.token == old(store.token)
      ensures error == (if login.Success? then old(error) else ErrorText(login.error, InvalidCredentials))
      ensures email == old(email) && password == old(password)
    {
      var added := AcceptedEffects(email, password, login);
      var shown := if login.Failure? then ErrorText(login.error, InvalidCredentials) else error;
      loading := true;
      store.ClearAllData();
      effects, error, loading := effects + added, shown, false;
    }
  }
}
