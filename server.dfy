/** The Express server of index.js: the `authenticateJWT` gate and the
    `/register`, `/login`, `/dashboard` and `/logout` handlers, as one object
    holding the user collection and the session slot of the calling client.
    Each handler is one sequential step; what the source awaits from the
    database or the session store arrives as a parameter saying whether that
    call failed. */
module Server {
  import opened JsBuiltins

  /** What the session and a verified token carry: `{ id, email }`. */
  datatype Identity = Identity(id: nat, email: string)

  /** A stored user: the four fields of the Mongoose schema. Fields the request
      left out are stored absent. */
  datatype UserRecord = UserRecord(username: Option<string>, email: string, age: Option<int>, password: string)

  /** A record as the dashboard sees it after `select("-password")`. */
  datatype Profile = Profile(id: nat, username: Option<string>, email: string, age: Option<int>)

  datatype Body =
    | Error(error: string)
    | Message(message: string)
    | Created(message: string, user: Identity)
    | Page(view: string, profile: Profile)

  /** Status, JSON body (or rendered page) and the cookies the response clears. */
  datatype Response = Response(status: nat, body: Body, clearedCookies: seq<string>)

  datatype RegisterRequest = RegisterRequest(username: Option<string>, email: Option<string>, age: Option<int>, password: Option<string>)

  datatype LoginRequest = LoginRequest(email: Option<string>, password: Option<string>)

  /** bcrypt as the server uses it: `hash(password, salt)` and
      `compare(password, digest)`. The salt bcrypt draws at random is a
      parameter of `Register`. */
  datatype Crypto = Crypto(hash: (string, string) -> string, compare: (string, string) -> bool)

  /** What the server relies on bcrypt for: a digest never equals the password
      it was made from, and the password always matches its own digest. */
  ghost predicate Sound(c: Crypto) {
    forall password, salt :: c.compare(password, c.hash(password, salt)) && c.hash(password, salt) != password
  }

  /** The assumption can be met: a digest that prefixes the password with a
      marker is never the password and always matches it. */
  lemma SoundSatisfiable()
    ensures Sound(Crypto((password, salt) => "$" + password, (password, digest) => digest == "$" + password))
  {
    var c := Crypto((password: string, salt: string) => "$" + password, (password: string, digest: string) => digest == "$" + password);
    forall password, salt ensures c.compare(password, c.hash(password, salt)) && c.hash(password, salt) != password {
      assert |c.hash(password, salt)| == |password| + 1;
    }
  }

  const MissingFields := Response(400, Error("Email and password required"), [])
  const NoModel := Response(500, Error("User model not available. Add ./models/usermodel.js or configure DB."), [])
  const ServerError := Response(500, Error("Server error"), [])
  const Conflict := Response(409, Error("User with this email already exists"), [])
  const InvalidCredentials := Response(401, Error("Invalid credentials"), [])
  const AuthRequired := Response(401, Error("Authentication required"), [])
  const InvalidToken := Response(403, Error("Invalid or expired token"), [])

  /** `!email || !password` at the top of both POST handlers, negated. */
  predicate FieldsPresent(email: Option<string>, password: Option<string>) {
    Truthy(email) && Truthy(password)
  }

  // ---------------------------------------------------------------- the gate

  /** `authHeader && authHeader.split(" ")[1]`: the second space-separated
      word of the Authorization header, when there is one. */
  function BearerToken(authorization: Option<string>): (token: Option<string>)
    ensures token.Some? <==> Truthy(authorization) && ' ' in authorization.value
    ensures token.Some? ==> ' ' !in token.value
  {
    if !Truthy(authorization) then None
    else
      var parts := Split(authorization.value, ' ');
      if |parts| > 1 then
        assert authorization.value[|parts[0]|] == ' ';
        Some(parts[1])
      else
        None
  }

  /** `Authorization: <scheme> <token>[ <more>]` carries `token`. */
  lemma BearerTokenOf(scheme: string, token: string, rest: string)
    requires ' ' !in scheme && ' ' !in token
    requires rest == [] || rest[0] == ' '
    ensures BearerToken(Some(scheme + " " + token + rest)) == Some(token)
  {
    var h := scheme + " " + token + rest;
    assert h == scheme + [' '] + (token + rest);
    SplitAfterSeparator(scheme, token + rest, ' ');
    SplitFirstField(token, rest, ' ');
    assert h[|scheme|] == ' ';
  }

  /** What the gate does with the request: pass an identity on to the handler
      (`req.user`), or answer itself. */
  datatype GateOutcome = Next(user: Identity) | Deny(response: Response)

  /** `authenticateJWT`: the session user when there is one; otherwise the
      payload of the bearer token if it verifies (403 if it does not), and 401
      when there is no token at all. `verify` is `jwt.verify` with the server's
      secret at the time of the request, expiry included. */
  function Gate(session: Option<Identity>, authorization: Option<string>, verify: string -> Option<Identity>): (g: GateOutcome)
    ensures g.Next? <==> session.Some? || (Truthy(BearerToken(authorization)) && verify(BearerToken(authorization).value).Some?)
    ensures session.Some? ==> g == Next(session.value)
    ensures session.None? && g.Next? ==> g.user == verify(BearerToken(authorization).value).value
    ensures g.Deny? ==> g.response == if Truthy(BearerToken(authorization)) then InvalidToken else AuthRequired
  {
    if session.Some? then Next(session.value)
    else
      var token := BearerToken(authorization);
      if !Truthy(token) then Deny(AuthRequired)
      else match verify(token.value)
        case Some(payload) => Next(payload)
        case None => Deny(InvalidToken)
  }

  /** With a session user, the Authorization header and the token verifier
      make no difference. */
  lemma SessionIgnoresHeader(user: Identity, h1: Option<string>, h2: Option<string>, v1: string -> Option<Identity>, v2: string -> Option<Identity>)
    ensures Gate(Some(user), h1, v1) == Gate(Some(user), h2, v2) == Next(user)
  {
  }

  /** Without a session, a well-formed `Bearer <token>` header gets exactly the
      verified payload through, and a token that fails verification gets 403. */
  lemma {:induction false} GateBearer(token: string, verify: string -> Option<Identity>)
    requires token != [] && ' ' !in token
    ensures verify(token).Some? ==> Gate(None, Some("Bearer " + token), verify) == Next(verify(token).value)
    ensures verify(token).None? ==> Gate(None, Some("Bearer " + token), verify) == Deny(InvalidToken)
  {
    BearerTokenOf("Bearer", token, []);
    assert "Bearer" + " " + token + [] == "Bearer " + token;
  }

  /** A header with no second word, or an empty one ("Bearer" alone, a double
      space), is treated as no token at all: 401, not 403. */
  lemma GateNoToken(verify: string -> Option<Identity>)
    ensures Gate(None, None, verify) == Deny(AuthRequired)
    ensures Gate(None, Some("Bearer"), verify) == Deny(AuthRequired)
    ensures Gate(None, Some("Bearer  abc"), verify) == Deny(AuthRequired)
  {
    assert ' ' !in "Bearer";
    BearerTokenOf("Bearer", "", " abc");
    assert "Bearer" + " " + "" + " abc" == "Bearer  abc";
  }

  // ---------------------------------------------------------------- lookups

  /** `User.findOne({ email })`: the first record whose email is exactly the
      given string (no case folding). */
  function FindByEmail(users: seq<UserRecord>, email: string): (r: Option<nat>)
    ensures r.Some? ==> r.value < |users| && users[r.value].email == email
    ensures r.Some? ==> forall j :: 0 <= j < r.value ==> users[j].email != email
    ensures r.None? ==> forall j :: 0 <= j < |users| ==> users[j].email != email
  {
    if users == [] then None
    else if users[0].email == email then Some(0)
    else match FindByEmail(users[1..], email)
      case Some(i) => Some(i + 1)
      case None => None
  }

  /** `User.findById(id).select("-password")`: every field but the password. */
  function ProfileOf(id: nat, user: UserRecord): Profile
  {
    Profile(id, user.username, user.email, user.age)
  }

  // ---------------------------------------------------------------- the server

  class AuthServer {
    /** bcrypt. */
    const crypto: Crypto
    /** Whether `require("./models/usermodel")` succeeded at start-up. */
    const modelAvailable: bool
    /** The users collection; a record's `_id` is its position. */
    var users: seq<UserRecord>
    /** `req.session.user` of the calling client. */
    var session: Option<Identity>
    /** The password and salt each stored digest was made from. */
    ghost var secrets: seq<(string, string)>

    ghost predicate Valid()
      reads this
    {
      && Sound(crypto)
      && |secrets| == |users|
      && (forall i :: 0 <= i < |users| ==> users[i].password == crypto.hash(secrets[i].0, secrets[i].1))
      && (forall i, j :: 0 <= i < j < |users| ==> users[i].email != users[j].email)
      && (session.Some? ==> session.value.id < |users| && users[session.value.id].email == session.value.email)
    }

    constructor (crypto: Crypto, modelAvailable: bool)
      requires Sound(crypto)
      ensures Valid()
      ensures this.crypto == crypto && this.modelAvailable == modelAvailable
      ensures users == [] && session == None
    {
      this.crypto := crypto;
      this.modelAvailable := modelAvailable;
      users := [];
      session := None;
      secrets := [];
    }

    /** `POST /register`. The checks run in the order 400, 500 (no model),
        409; `lookupFails` and `saveFails` say whether `findOne` or `save`
        throws (500 "Server error"). The session is written only after a
        successful save, and the token `jwt.sign` makes is never sent. */
    method Register(req: RegisterRequest, salt: string, lookupFails: bool, saveFails: bool) returns (res: Response)
      requires Valid()
      modifies this
      ensures Valid()
      ensures !FieldsPresent(req.email, req.password) ==> res == MissingFields && unchanged(this)
      ensures FieldsPresent(req.email, req.password) && !modelAvailable ==> res == NoModel && unchanged(this)
      ensures FieldsPresent(req.email, req.password) && modelAvailable && lookupFails ==> res == ServerError && unchanged(this)
      ensures FieldsPresent(req.email, req.password) && modelAvailable && !lookupFails && FindByEmail(old(users), req.email.value).Some?
        ==> res == Conflict && unchanged(this)
      ensures FieldsPresent(req.email, req.password) && modelAvailable && !lookupFails && FindByEmail(old(users), req.email.value).None? && saveFails
        ==> res == ServerError && unchanged(this)
      ensures FieldsPresent(req.email, req.password) && modelAvailable && !lookupFails && FindByEmail(old(users), req.email.value).None? && !saveFails
        ==> var id := |old(users)|;
            var email, password := req.email.value, req.password.value;
            && users == old(users) + [UserRecord(req.username, email, req.age, crypto.hash(password, salt))]
            && secrets == old(secrets) + [(password, salt)]
            && users[id].password != password
            && crypto.compare(password, users[id].password)
            && session == Some(Identity(id, email))
            && res == Response(201, Created("User created", Identity(id, email)), [])
    {
      if !FieldsPresent(req.email, req.password) {
        return MissingFields;
      }
      if !modelAvailable {
        return NoModel;
      }
      if lookupFails {
        return ServerError;
      }
      var email, password := req.email.value, req.password.value;
      if FindByEmail(users, email).Some? {
        return Conflict;
      }
      var hashed := crypto.hash(password, salt);
      if saveFails {
        return ServerError;
      }
      var id := |users|;
      users := users + [UserRecord(req.username, email, req.age, hashed)];
      secrets := secrets + [(password, salt)];
      session := Some(Identity(id, email));
      res := Response(201, Created("User created", Identity(id, email)), []);
    }

    /** `POST /login`. An unknown email and a wrong password give the same
        401 and leave the session alone; a password that matches its record's
        digest signs the client in as that record. */
    method Login(req: LoginRequest, lookupFails: bool) returns (res: Response)
      requires Valid()
      modifies this
      ensures Valid()
      ensures users == old(users) && secrets == old(secrets)
      ensures !FieldsPresent(req.email, req.password) ==> res == MissingFields && session == old(session)
      ensures FieldsPresent(req.email, req.password) && !modelAvailable ==> res == NoModel && session == old(session)
      ensures FieldsPresent(req.email, req.password) && modelAvailable && lookupFails ==> res == ServerError && session == old(session)
      ensures FieldsPresent(req.email, req.password) && modelAvailable && !lookupFails
        ==> var found := FindByEmail(users, req.email.value);
            && ((found.None? || !crypto.compare(req.password.value, users[found.value].password)) ==>
                  res == InvalidCredentials && session == old(session))
            && ((found.Some? && crypto.compare(req.password.value, users[found.value].password)) ==>
                  res == Response(200, Message("Logged in"), []) && session == Some(Identity(found.value, req.email.value)))
            && (found.Some? && secrets[found.value].0 == req.password.value ==> res.status == 200)
    {
      if !FieldsPresent(req.email, req.password) {
        return MissingFields;
      }
      if !modelAvailable {
        return NoModel;
      }
      if lookupFails {
        return ServerError;
      }
      var email, password := req.email.value, req.password.value;
      var found := FindByEmail(users, email);
      if found.None? {
        return InvalidCredentials;
      }
      var user := users[found.value];
      if !crypto.compare(password, user.password) {
        return InvalidCredentials;
      }
      session := Some(Identity(found.value, email));
      res := Response(200, Message("Logged in"), []);
    }

    /** `GET /dashboard` behind the gate: the caller's record without its
        password, 404 when the identity's id names no record. */
    method Dashboard(authorization: Option<string>, verify: string -> Option<Identity>) returns (res: Response)
      requires Valid()
      ensures Gate(session, authorization, verify).Deny? ==> res == Gate(session, authorization, verify).response
      ensures Gate(session, authorization, verify).Next? ==>
        var id := Gate(session, authorization, verify).user.id;
        && (!modelAvailable ==> res == Response(500, Error("User model not available."), []))
        && (modelAvailable && id >= |users| ==> res == Response(404, Error("User not found"), []))
        && (modelAvailable && id < |users| ==> res == Response(200, Page("dashboard", ProfileOf(id, users[id])), []))
      ensures session.Some? && modelAvailable ==> res.status == 200 && res.body.profile.email == session.value.email
    {
      var gate := Gate(session, authorization, verify);
      if gate.Deny? {
        return gate.response;
      }
      if !modelAvailable {
        return Response(500, Error("User model not available."), []);
      }
      var id := gate.user.id;
      if id >= |users| {
        return Response(404, Error("User not found"), []);
      }
      res := Response(200, Page("dashboard", ProfileOf(id, users[id])), []);
    }

    /** `POST /logout`: `session.destroy`, then both cookies cleared. When the
        session store reports an error the answer is 500 and nothing is
        cleared. */
    method Logout(destroyFails: bool) returns (res: Response)
      requires Valid()
      modifies this
      ensures Valid()
      ensures destroyFails ==> res == Response(500, Error("Could not log out"), []) && unchanged(this)
      ensures !destroyFails ==> res == Response(200, Message("Logged out"), ["sid", "token"])
                                && session == None && users == old(users) && secrets == old(secrets)
    {
      if destroyFails {
        return Response(500, Error("Could not log out"), []);
      }
      session := None;
      res := Response(200, Message("Logged out"), ["sid", "token"]);
    }
  }

  // ---------------------------------------------------------------- request sequences

  /** Registering, logging out and logging back in with the same password
      signs the client in as the new record, and the dashboard then shows it. */
  method RegisterLogoutLogin(server: AuthServer, req: RegisterRequest, salt: string) returns (registered: Response, loggedIn: Response, page: Response)
    requires server.Valid() && server.modelAvailable
    modifies server
    ensures server.Valid()
    ensures registered.status == 201 ==> loggedIn.status == 200 && page.status == 200
    ensures registered.status == 201 ==>
      && registered.body.Created? && server.session == Some(registered.body.user)
      && page.body.Page? && req.email.Some? && page.body.profile.email == req.email.value
  {
    registered := server.Register(req, salt, false, false);
    var _ := server.Logout(false);
    loggedIn := server.Login(LoginRequest(req.email, req.password), false);
    if registered.status == 201 {
      var id := |server.users| - 1;
      assert FindByEmail(server.users, req.email.value) == Some(id);
    }
    page := server.Dashboard(None, _ => None);
  }

  /** A second registration with the same email string is refused. */
  method RegisterTwice(server: AuthServer, first: RegisterRequest, second: RegisterRequest, salt: string) returns (r1: Response, r2: Response)
    requires server.Valid()
    requires FieldsPresent(second.email, second.password) && second.email == first.email
    modifies server
    ensures server.Valid()
    ensures r1.status == 201 ==> r2 == Conflict && |server.users| == |old(server.users)| + 1
  {
    r1 := server.Register(first, salt, false, false);
    r2 := server.Register(second, salt, false, false);
  }

  /** After logout the session no longer lets the client in; a request with
      no Authorization header is refused with 401. */
  method LogoutThenDashboard(server: AuthServer, verify: string -> Option<Identity>) returns (out: Response, page: Response)
    requires server.Valid()
    modifies server
    ensures out.status == 200 ==> page == AuthRequired
  {
    out := server.Logout(false);
    page := server.Dashboard(None, verify);
  }
}
