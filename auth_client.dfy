/** The decisions of public/auth.js: `validateEmail`, the submit handler's
    two checks before it sends the form, what it does with the server's answer,
    and what the logout link does with its answer. Writing messages into the
    page, the `fetch` itself and network errors are not modelled. */
module AuthClient {
  import opened JsBuiltins

  /** What a handler ends with: the request goes out, the browser moves to
      another page, or a message is shown in the form. */
  datatype Action = Send | Navigate(path: string) | ShowError(message: string)

  const EmailError := "Please enter a valid email address"
  const PasswordError := "Password must be at least 6 characters"
  const FallbackError := "Authentication failed"
  const LogoutError := "Could not logout"

  /** `s[from..to]` is a non-empty run of `\S`. */
  ghost predicate NonSpaceRun(s: string, from: int, to: int) {
    0 <= from < to <= |s| && forall k :: from <= k < to ==> !IsWhitespace(s[k])
  }

  /** `s[start..end]` matches `\S+@\S+\.\S+` with the '@' at `at` and the '.'
      at `dot`. */
  ghost predicate MatchAt(s: string, start: int, at: int, dot: int, end: int) {
    && NonSpaceRun(s, start, at) && at < |s| && s[at] == '@'
    && NonSpaceRun(s, at + 1, dot) && dot < |s| && s[dot] == '.'
    && NonSpaceRun(s, dot + 1, end)
  }

  /** What `/\S+@\S+\.\S+/.test(s)` accepts: a match anywhere in `s`. */
  ghost predicate UnanchoredEmail(s: string) {
    exists start, at, dot, end :: MatchAt(s, start, at, dot, end)
  }

  /** `validateEmail`: some '@' with a non-blank character before it, and
      after it a '.' reached without whitespace and followed by a non-blank
      character. Text around the address and further '@'s do not matter. */
  function ValidateEmail(s: string): (b: bool)
    ensures b <==> UnanchoredEmail(s)
  {
    var b := exists at | 0 < at < |s| :: AddressAt(s, at);
    assert b ==> UnanchoredEmail(s) by {
      if b {
        var at :| 0 < at < |s| && AddressAt(s, at);
        var dot :| at + 1 < dot < |s| - 1 && DotAfter(s, at, dot);
        assert MatchAt(s, at - 1, at, dot, dot + 2);
      }
    }
    assert UnanchoredEmail(s) ==> b by {
      if UnanchoredEmail(s) {
        var start, at, dot, end :| MatchAt(s, start, at, dot, end);
        assert DotAfter(s, at, dot);
        assert AddressAt(s, at);
      }
    }
    b
  }

  /** An '@' at `at` with a non-blank character before it and a usable '.'
      after it. */
  predicate AddressAt(s: string, at: int)
    requires 0 < at < |s|
  {
    s[at] == '@' && !IsWhitespace(s[at - 1]) && exists dot | at + 1 < dot < |s| - 1 :: DotAfter(s, at, dot)
  }

  /** The '.' at `dot` follows the '@' at `at` with no whitespace between
      them, and a non-blank character follows it. */
  predicate DotAfter(s: string, at: int, dot: int)
    requires 0 <= at < dot < |s| - 1
  {
    s[dot] == '.' && !IsWhitespace(s[dot + 1]) && forall k | at < k < dot :: !IsWhitespace(s[k])
  }

  /** The submit handler up to `fetch`: the email check first, then the
      password's untrimmed length. */
  function CheckSubmission(email: Option<string>, password: Option<string>): (a: Action)
    ensures a == Send <==> Truthy(email) && UnanchoredEmail(email.value) && password.Some? && |password.value| >= 6
    ensures !(Truthy(email) && UnanchoredEmail(email.value)) ==> a == ShowError(EmailError)
    ensures Truthy(email) && UnanchoredEmail(email.value) && !(password.Some? && |password.value| >= 6) ==> a == ShowError(PasswordError)
  {
    if !Truthy(email) || !ValidateEmail(email.value) then ShowError(EmailError)
    else if !Truthy(password) || |password.value| < 6 then ShowError(PasswordError)
    else Send
  }

  /** The submit handler after `fetch`: a 2xx answer goes to the dashboard;
      otherwise the body's `error`, else its `message`, else a fixed text is
      shown, so the message shown is never empty. */
  function ResponseAction(ok: bool, error: Option<string>, message: Option<string>): (a: Action)
    ensures a.Navigate? <==> ok
    ensures a.Navigate? ==> a.path == "/dashboard"
    ensures a.ShowError? ==> a.message != ""
    ensures !ok && Truthy(error) ==> a == ShowError(error.value)
    ensures !ok && !Truthy(error) && Truthy(message) ==> a == ShowError(message.value)
    ensures !ok && !Truthy(error) && !Truthy(message) ==> a == ShowError(FallbackError)
  {
    if !ok then
      ShowError(if Truthy(error) then error.value else if Truthy(message) then message.value else FallbackError)
    else
      Navigate("/dashboard")
  }

  /** The logout link after `fetch("/logout")`: the body is not read. */
  function LogoutAction(ok: bool): Action
  {
    if ok then Navigate("/login") else ShowError(LogoutError)
  }
}
