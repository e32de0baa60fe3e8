/** How the checks of the three scripts relate. The same login and register
    forms go through `validateField` (public/javascripts/app.js) on blur, then
    through the submit handler of public/auth.js, then through the server's
    handlers in index.js. */
module Consistency {
  import opened JsBuiltins
  import FieldValidation
  import AuthClient
  import Server

  /** Every address the field validator accepts after trimming, the submit
      handler accepts untrimmed. */
  lemma FieldEmailPassesSubmit(s: string)
    requires FieldValidation.IsValidEmail(Trim(s))
    ensures AuthClient.ValidateEmail(s)
  {
    var r := Trim(s);
    var i :| PaddedAt(s, r, i);
    EmbeddedAddressPasses(s, i, r);
  }

  /** The submit handler's pattern is not anchored: an address inside other
      text passes it. When that text has a space after some non-blank
      character, the space survives `trim()`, and the field validator
      refuses the value as an email. */
  lemma SubmitAcceptsSurroundingText(before: string, address: string, after: string, name: string)
    requires FieldValidation.IsValidEmail(address)
    ensures AuthClient.ValidateEmail(before + address + after)
    ensures (exists j, k :: 0 <= j < k < |before| && !IsWhitespace(before[j]) && before[k] == ' ') ==>
      FieldValidation.ValidateField(before + address + after, "email", name) == FieldValidation.Invalid(FieldValidation.EmailMessage)
  {
    var s := before + address + after;
    assert s[|before|..|before| + |address|] == address;
    EmbeddedAddressPasses(s, |before|, address);
    if exists j, k :: 0 <= j < k < |before| && !IsWhitespace(before[j]) && before[k] == ' ' {
      var j, k :| 0 <= j < k < |before| && !IsWhitespace(before[j]) && before[k] == ' ';
      var last := |before| + |address| - 1;
      assert !IsWhitespace(s[last]) by {
        var at, dot :| FieldValidation.EmailShape(address, at, dot);
        FieldValidation.CharsFromShape(address, at, dot);
        assert s[last] == address[|address| - 1];
      }
      assert !IsWhitespace(s[j]) && s[k] == ' ';
      SpaceSurvivesTrim(s, j, k, last);
      SpacedValueNotEmail(s, name);
    }
  }

  /** A space with non-blank characters on both sides is kept by `trim()`. */
  lemma SpaceSurvivesTrim(s: string, j: int, k: int, last: int)
    requires 0 <= j < k < last < |s|
    requires !IsWhitespace(s[j]) && s[k] == ' ' && !IsWhitespace(s[last])
    ensures exists m :: 0 <= m < |Trim(s)| && Trim(s)[m] == ' '
  {
    var r := Trim(s);
    var i :| PaddedAt(s, r, i);
    assert i <= j && last < i + |r|;
    assert r[k - i] == s[i..i + |r|][k - i];
  }

  /** An email-typed field whose trimmed value holds a space is refused as an
      email, whatever its name. */
  lemma SpacedValueNotEmail(raw: string, name: string)
    requires exists m :: 0 <= m < |Trim(raw)| && Trim(raw)[m] == ' '
    ensures FieldValidation.ValidateField(raw, "email", name) == FieldValidation.Invalid(FieldValidation.EmailMessage)
  {
    var r := Trim(raw);
    if FieldValidation.AnchoredEmail(r) {
      var a, d :| FieldValidation.EmailShape(r, a, d);
      FieldValidation.CharsFromShape(r, a, d);
      assert false;
    }
  }

  /** A field-valid address anywhere inside `s` makes `s` pass the submit
      handler's check. */
  lemma EmbeddedAddressPasses(s: string, i: int, address: string)
    requires 0 <= i && i + |address| <= |s| && s[i..i + |address|] == address
    requires FieldValidation.IsValidEmail(address)
    ensures AuthClient.ValidateEmail(s)
  {
    var at, dot :| FieldValidation.EmailShape(address, at, dot);
    assert forall k :: i <= k < i + |address| ==> !IsWhitespace(s[k]) by {
      FieldValidation.CharsFromShape(address, at, dot);
      forall k | i <= k < i + |address| ensures !IsWhitespace(s[k]) {
        assert s[k] == s[i..i + |address|][k - i];
      }
    }
    assert s[i + at] == '@' && s[i + dot] == '.' by {
      assert s[i + at] == s[i..i + |address|][at];
      assert s[i + dot] == s[i..i + |address|][dot];
    }
    assert AuthClient.MatchAt(s, i, i + at, i + dot, i + |address|);
  }

  /** `\S` includes '@': a second '@' passes the submit handler, while the
      field validator insists on exactly one. */
  lemma SubmitAcceptsRepeatedAt(local: string, domain: string, top: string)
    requires local != [] && domain != [] && top != []
    requires NoWhitespace(local) && NoWhitespace(domain) && NoWhitespace(top)
    ensures AuthClient.ValidateEmail(local + "@@" + domain + "." + top)
    ensures !FieldValidation.IsValidEmail(local + "@@" + domain + "." + top)
  {
    var s := local + "@@" + domain + "." + top;
    var at, dot := |local|, |local| + 2 + |domain|;
    assert s[at - 1] == local[|local| - 1] && s[at] == '@' && s[at + 1] == '@';
    forall k | at < k < dot ensures !IsWhitespace(s[k]) {
      if k > at + 1 { assert s[k] == domain[k - at - 2]; }
    }
    assert s[dot] == '.' && s[dot + 1] == top[0];
    assert AuthClient.MatchAt(s, at - 1, at, dot, dot + 2);
    if FieldValidation.AnchoredEmail(s) {
      var a, d :| FieldValidation.EmailShape(s, a, d);
      FieldValidation.CharsFromShape(s, a, d);
      assert false;
    }
  }

  /** The submit handler measures the password untrimmed: six spaces are sent,
      although the field validator calls that value empty. */
  lemma BlankPasswordIsSent(email: Option<string>, password: string, name: string)
    requires Truthy(email) && AuthClient.ValidateEmail(email.value)
    requires AllWhitespace(password) && |password| >= 6
    ensures AuthClient.CheckSubmission(email, Some(password)) == AuthClient.Send
    ensures FieldValidation.ValidateField(password, "password", name) == FieldValidation.Invalid(FieldValidation.RequiredMessage)
  {
  }

  /** A form the submit handler sends never meets the server's 400
      "Email and password required". */
  lemma SentFormHasFields(email: Option<string>, password: Option<string>)
    requires AuthClient.CheckSubmission(email, password) == AuthClient.Send
    ensures Server.FieldsPresent(email, password)
  {
  }

  // ---------------------------------------------------------------- the page and the server together

  /** The `error` field of an answer's JSON body, if it has one. */
  function ErrorField(body: Server.Body): Option<string> {
    if body.Error? then Some(body.error) else None
  }

  /** The `message` field of an answer's JSON body, if it has one. */
  function MessageField(body: Server.Body): Option<string> {
    if body.Message? || body.Created? then Some(body.message) else None
  }

  /** `res.ok`: a 2xx status. */
  predicate Ok(res: Server.Response) {
    200 <= res.status < 300
  }

  /** The login form submitted: the page's two checks, `POST /login`, then
      what the page does with the answer. An unknown email and a wrong
      password show the same text; a match goes to the dashboard signed in. */
  method SubmitLogin(server: Server.AuthServer, email: Option<string>, password: Option<string>, lookupFails: bool)
    returns (a: AuthClient.Action)
    requires server.Valid()
    modifies server
    ensures server.Valid() && server.users == old(server.users)
    ensures AuthClient.CheckSubmission(email, password) != AuthClient.Send ==>
      a == AuthClient.CheckSubmission(email, password) && server.session == old(server.session)
    ensures AuthClient.CheckSubmission(email, password) == AuthClient.Send && !server.modelAvailable ==>
      a == AuthClient.ShowError(Server.NoModel.body.error) && server.session == old(server.session)
    ensures AuthClient.CheckSubmission(email, password) == AuthClient.Send && server.modelAvailable && lookupFails ==>
      a == AuthClient.ShowError("Server error") && server.session == old(server.session)
    ensures AuthClient.CheckSubmission(email, password) == AuthClient.Send && server.modelAvailable && !lookupFails ==>
      var found := Server.FindByEmail(server.users, email.value);
      if found.Some? && server.crypto.compare(password.value, server.users[found.value].password) then
        a == AuthClient.Navigate("/dashboard") && server.session == Some(Server.Identity(found.value, email.value))
      else
        a == AuthClient.ShowError("Invalid credentials") && server.session == old(server.session)
  {
    var check := AuthClient.CheckSubmission(email, password);
    if check != AuthClient.Send {
      return check;
    }
    var res := server.Login(Server.LoginRequest(email, password), lookupFails);
    a := AuthClient.ResponseAction(Ok(res), ErrorField(res.body), MessageField(res.body));
  }

  /** The register form submitted: the page's two checks, `POST /register`,
      then what the page does with the answer. A known email shows the
      server's 409 text; a new one goes to the dashboard signed in as the new
      record. */
  method SubmitRegister(server: Server.AuthServer, req: Server.RegisterRequest, salt: string, lookupFails: bool, saveFails: bool)
    returns (a: AuthClient.Action)
    requires server.Valid()
    modifies server
    ensures server.Valid()
    ensures AuthClient.CheckSubmission(req.email, req.password) != AuthClient.Send ==>
      a == AuthClient.CheckSubmission(req.email, req.password) && unchanged(server)
    ensures AuthClient.CheckSubmission(req.email, req.password) == AuthClient.Send && !server.modelAvailable ==>
      a == AuthClient.ShowError(Server.NoModel.body.error) && unchanged(server)
    ensures AuthClient.CheckSubmission(req.email, req.password) == AuthClient.Send && server.modelAvailable && lookupFails ==>
      a == AuthClient.ShowError("Server error") && unchanged(server)
    ensures AuthClient.CheckSubmission(req.email, req.password) == AuthClient.Send && server.modelAvailable && !lookupFails ==>
      var known := Server.FindByEmail(old(server.users), req.email.value).Some?;
      && (known ==> a == AuthClient.ShowError("User with this email already exists") && unchanged(server))
      && (!known && saveFails ==> a == AuthClient.ShowError("Server error") && unchanged(server))
      && (!known && !saveFails ==>
            && a == AuthClient.Navigate("/dashboard")
            && |server.users| == |old(server.users)| + 1
            && server.users[..|old(server.users)|] == old(server.users)
            && server.session == Some(Server.Identity(|old(server.users)|, req.email.value)))
  {
    var check := AuthClient.CheckSubmission(req.email, req.password);
    if check != AuthClient.Send {
      return check;
    }
    var res := server.Register(req, salt, lookupFails, saveFails);
    a := AuthClient.ResponseAction(Ok(res), ErrorField(res.body), MessageField(res.body));
  }

  /** The logout link: `POST /logout`, then the page goes to the login page
      with the session gone, or shows its own text with nothing changed. */
  method LogoutFromPage(server: Server.AuthServer, destroyFails: bool) returns (a: AuthClient.Action)
    requires server.Valid()
    modifies server
    ensures server.Valid()
    ensures !destroyFails ==> a == AuthClient.Navigate("/login") && server.session.None? && server.users == old(server.users)
    ensures destroyFails ==> a == AuthClient.ShowError(AuthClient.LogoutError) && unchanged(server)
  {
    var res := server.Logout(destroyFails);
    a := AuthClient.LogoutAction(Ok(res));
  }
}
