/**
 * The forgot-password page: an emptiness check, then the address is matched against
 * `^[^\s@]+@[^\s@]+\.[^\s@]+$`, then the reset link is requested.
 */
module ForgotPassword {
  import opened Wrappers
  import opened Text
  import opened Types
  import opened Auth
  import Api

  const EnterEmail := "Please enter your email address"
  const InvalidEmail := "Please enter a valid email address"
  const SendFailed := "Failed to send reset link. Please try again."

  /** A character of the class `[^\s@]`. */
  predicate Plain(c: char) {
    !IsWhitespace(c) && c != '@'
  }

  /** A run `[^\s@]*`: every character is plain. */
  predicate AllPlain(s: string) {
    forall k :: 0 <= k < |s| ==> Plain(s[k])
  }

  /**
   * The regular expression read literally, with the `@` at `i` and the `.` at `j`: a
   * non-empty plain run, `@`, a non-empty plain run, `.`, and a non-empty plain run.
   */
  ghost predicate PatternAt(s: string, i: int, j: int) {
    0 < i && i + 1 < j < |s| - 1 &&
    AllPlain(s[..i]) && s[i] == '@' && AllPlain(s[i + 1..j]) && s[j] == '.' && AllPlain(s[j + 1..])
  }

  /** `^[^\s@]+@[^\s@]+\.[^\s@]+$` matches `s`. */
  ghost predicate MatchesEmailPattern(s: string) {
    exists i, j :: PatternAt(s, i, j)
  }

  /** The index of the first `@`, or the length when there is none. */
  function AtIndex(s: string): (i: nat)
    ensures i <= |s| && '@' !in s[..i]
    ensures i < |s| ==> s[i] == '@'
  {
    if s == [] then 0
    else if s[0] == '@' then 0
    else 1 + AtIndex(s[1..])
  }

  /** No character is white space. */
  predicate NoSpace(s: string) {
    forall k :: 0 <= k < |s| ==> !IsWhitespace(s[k])
  }

  /** The test the page runs: no white space, one `@` after a non-empty local part, and a `.` strictly inside the domain. */
  predicate IsValidEmail(s: string) {
    var i := AtIndex(s);
    0 < i < |s| && NoSpace(s) && '@' !in s[i + 1..] && |s[i + 1..]| >= 3 && '.' in s[i + 2..|s| - 1]
  }

  /** The page's test accepts exactly the addresses the regular expression matches. */
  lemma ValidEmailMatchesPattern(s: string)
    ensures IsValidEmail(s) <==> MatchesEmailPattern(s)
  {
    if IsValidEmail(s) {
      ValidEmailHasPattern(s);
    }
    if MatchesEmailPattern(s) {
      var i, j :| PatternAt(s, i, j);
      PatternIsValidEmail(s, i, j);
    }
  }

  lemma ValidEmailHasPattern(s: string)
    requires IsValidEmail(s)
    ensures MatchesEmailPattern(s)
  {
    var i := AtIndex(s);
    var m := s[i + 2..|s| - 1];
    var d :| 0 <= d < |m| && m[d] == '.';
    var j := i + 2 + d;
    assert s[j] == '.';
    var local, domain := s[..i], s[i + 1..];
    assert AllPlain(local) by {
      forall k | 0 <= k < |local| ensures Plain(local[k]) {
        assert local[k] in local;
      }
    }
    var host, top := s[i + 1..j], s[j + 1..];
    assert AllPlain(host) by {
      forall k | 0 <= k < |host| ensures Plain(host[k]) {
        assert host[k] == domain[k];
        assert domain[k] in domain;
      }
    }
    assert AllPlain(top) by {
      forall k | 0 <= k < |top| ensures Plain(top[k]) {
        assert top[k] == domain[k + j - i];
        assert domain[k + j - i] in domain;
      }
    }
    assert PatternAt(s, i, j);
  }

  lemma PatternIsValidEmail(s: string, i: int, j: int)
    requires PatternAt(s, i, j)
    ensures IsValidEmail(s)
  {
    var local, host, top := s[..i], s[i + 1..j], s[j + 1..];
    FirstAt(s, i);
    assert NoSpace(s) by {
      forall k | 0 <= k < |s| ensures !IsWhitespace(s[k]) {
        if k < i {
          assert s[k] == local[k];
        } else if i < k < j {
          assert s[k] == host[k - i - 1];
        } else if j < k {
          assert s[k] == top[k - j - 1];
        }
      }
    }
    var domain := s[i + 1..];
    assert '@' !in domain by {
      forall k | 0 <= k < |domain| ensures domain[k] != '@' {
        if k + i + 1 < j {
          assert domain[k] == host[k];
        } else if k + i + 1 > j {
          assert domain[k] == top[k + i - j];
        }
      }
    }
    assert s[i + 2..|s| - 1][j - i - 2] == '.';
  }

  /** An `@` with none before it is the first one. */
  lemma {:induction false} FirstAt(s: string, i: nat)
    requires i < |s| && s[i] == '@'
    requires forall k :: 0 <= k < i ==> s[k] != '@'
    ensures AtIndex(s) == i
  {
    if i > 0 {
      FirstAt(s[1..], i - 1);
    }
  }

  /**
   * An accepted address holds exactly one `@`, is never blank, and surrounding white space
   * makes it fail.
   */
  lemma ValidEmailShape(s: string, c: char)
    requires IsWhitespace(c)
    ensures IsValidEmail(s) ==> forall k :: 0 <= k < |s| && s[k] == '@' ==> k == AtIndex(s)
    ensures IsValidEmail(s) ==> Trim(s) != []
    ensures !IsValidEmail([c] + s) && !IsValidEmail(s + [c])
  {
    if IsValidEmail(s) {
      SingleAt(s);
      ValidIsNotBlank(s);
    }
    assert !NoSpace([c] + s) by { assert ([c] + s)[0] == c; }
    assert !NoSpace(s + [c]) by { assert (s + [c])[|s|] == c; }
  }

  lemma SingleAt(s: string)
    requires IsValidEmail(s)
    ensures forall k :: 0 <= k < |s| && s[k] == '@' ==> k == AtIndex(s)
  {
    var i := AtIndex(s);
    var local, domain := s[..i], s[i + 1..];
    forall k | 0 <= k < |s| && k != i
      ensures s[k] != '@'
    {
      if k < i {
        assert s[k] == local[k] && local[k] in local;
      } else {
        assert s[k] == domain[k - i - 1] && domain[k - i - 1] in domain;
      }
    }
  }

  lemma ValidIsNotBlank(s: string)
    requires IsValidEmail(s)
    ensures Trim(s) != []
  {
    TrimEmptyIff(s);
    assert !IsWhitespace(s[AtIndex(s)]);
  }

  /** The error the checks of `handleSubmit` set, if any: a blank address, then one the pattern rejects. */
  function FirstError(email: string): (r: Option<string>)
    ensures r.None? <==> IsValidEmail(email)
    ensures Trim(email) == [] ==> r == Some(EnterEmail)
    ensures Trim(email) != [] && !IsValidEmail(email) ==> r == Some(InvalidEmail)
  {
    ValidEmailShape(email, ' ');
    if Trim(email) == [] then Some(EnterEmail)
    else if !IsValidEmail(email) then Some(InvalidEmail)
    else None
  }

  class ForgotPasswordPage {
    var email: string
    var message: string
    var error: string
    var isLoading: bool
    /** The effects of every submit so far. */
    var effects: seq<Effect>

    constructor ()
      ensures email == "" && message == "" && error == "" && !isLoading && effects == []
    {
      email, message, error, isLoading, effects := "", "", "", false, [];
    }

    /**
     * `handleSubmit`: both notices are cleared first; a failed check sets its error; otherwise
     * the link is requested, and a success shows the server's message and clears the field,
     * while a failure shows the server's detail or the default text. `response` is the
     * outcome of the request, carrying the server's message.
     */
    method Submit(response: Outcome<string>)
      modifies this
      ensures var e := FirstError(old(email));
        e.Some? ==> error == e.value && message == "" && email == old(email) &&
                    isLoading == old(isLoading) && effects == old(effects)
      ensures var e := FirstError(old(email));
        e.None? && response.Success? ==>
          message == response.value && error == "" && email == "" && !isLoading &&
          effects == old(effects) + [ForgotPassword(old(email))]
      ensures var e := FirstError(old(email));
        e.None? && response.Failure? ==>
          error == ErrorText(response.error, SendFailed) && message == "" && email == old(email) &&
          !isLoading && effects == old(effects) + [ForgotPassword(old(email))]
    {
      error, message := "", "";
      var e := FirstError(email);
      if e.Some? {
        error := e.value;
      } else {
        Accept(response);
      }
    }

    /** The part of `handleSubmit` after the checks pass. */
    method Accept(response: Outcome<string>)
      modifies this
      ensures effects == old(effects) + [ForgotPassword(old(email))] && !isLoading
      ensures response.Success? ==> message == response.value && error == old(error) && email == ""
      ensures response.Failure? ==>
        error == ErrorText(response.error, SendFailed) && message == old(message) && email == old(email)
    {
      var added := [ForgotPassword(email)];
      var shown := if response.Success? then error else ErrorText(response.error, SendFailed);
      var notice := if response.Success? then response.value else message;
      var field := if response.Success? then "" else email;
      isLoading := true;
      effects, error, message, email, isLoading := effects + added, shown, notice, field, false;
    }

    /**
     * A submit against the client as it stands, whose `forgotPassword` always throws without
     * a response: every valid address ends with the default failure text and no message.
     */
    method SubmitToClient()
      modifies this
      ensures var e := FirstError(old(email));
        e.Some? ==> error == e.value && message == "" && effects == old(effects)
      ensures IsValidEmail(old(email)) ==>
        error == SendFailed && message == "" && email == old(email) && !isLoading &&
        effects == old(effects) + [ForgotPassword(old(email))]
    {
      var response := Api.ForgotPassword(email);
      Api.ResetFlowUnavailable("", "", email);
      Submit(response);
    }
  }
}
