/** The middleware every protected route runs before its handler: request
    validation, authentication (`isAuth`), and authorisation by role
    (`hasRole`) or by item ownership (`isOwner`). Each gate either answers the
    request (`Halt`) or passes it on (`Next`), never both. */
module AuthMiddleware {
  import opened Base
  import opened Text
  import opened Crypto
  import opened Records
  import opened UserModel
  import opened Http

  datatype Gate = Next | Halt(response: Response)

  /** The part of an Express request the gates share. `isAuth` attaches the
      verified identity to `user`. */
  class Request {
    /** The `Authorization` header, if sent. */
    const authorization: Option<string>
    /** `req.user`. */
    var user: Option<Claims>

    constructor (authorization: Option<string>)
      ensures this.authorization == authorization && user == None
    {
      this.authorization := authorization;
      user := None;
    }
  }

  // -----------------------------------------------------------------------
  // Request validation (express-validator)

  /** A request body as express-validator reads it: each sent path with the
      text of its value. */
  type Fields = map<string, string>

  /** The checks the two validation chains use. */
  datatype Check = NotEmpty | MinLength(n: nat) | IsEmail | IsIn(values: seq<string>) | IsBoolean

  /** `body(path).check().withMessage(msg)`. */
  datatype Rule = Rule(path: string, check: Check, msg: string)

  /** A path that was not sent is read as the empty string. */
  function FieldText(body: Fields, path: string): string {
    if path in body then body[path] else ""
  }

  /** A body path, absent when it was not sent. */
  function Lookup(body: Fields, path: string): (v: Option<string>)
    ensures v.Some? <==> path in body
    ensures v.Some? ==> v.value == body[path]
  {
    if path in body then Some(body[path]) else None
  }

  /** The texts `isBoolean()` accepts. */
  const BooleanTexts: seq<string> := ["true", "false", "1", "0"]

  /** Whether `text` passes `check`; `isEmail` is the email validator of the
      validation library. */
  predicate Passes(check: Check, text: string, isEmail: string -> bool) {
    match check
    case NotEmpty => text != ""
    case MinLength(n) => |text| >= n
    case IsEmail => isEmail(text)
    case IsIn(values) => text in values
    case IsBoolean => text in BooleanTexts
  }

  predicate Holds(r: Rule, body: Fields, isEmail: string -> bool) {
    Passes(r.check, FieldText(body, r.path), isEmail)
  }

  /** The entry a failed rule adds: its path and message, and the value sent. */
  function Failure(r: Rule, body: Fields): FieldError {
    FieldError(r.path, r.msg, Lookup(body, r.path))
  }

  /** `validationResult(req).array()`: one entry per failed rule, in the
      order the rules are declared. */
  function Violations(rules: seq<Rule>, body: Fields, isEmail: string -> bool): (errs: seq<FieldError>)
    ensures |errs| <= |rules|
    ensures errs == [] <==> forall i :: 0 <= i < |rules| ==> Holds(rules[i], body, isEmail)
    ensures forall i :: 0 <= i < |rules| && !Holds(rules[i], body, isEmail) ==>
      Failure(rules[i], body) in errs
    ensures forall e :: e in errs ==>
      exists i :: 0 <= i < |rules| && !Holds(rules[i], body, isEmail) && e == Failure(rules[i], body)
  {
    if rules == [] then []
    else
      var rest := Violations(rules[1..], body, isEmail);
      assert forall i :: 1 <= i < |rules| ==> rules[i] == rules[1..][i - 1];
      if Holds(rules[0], body, isEmail) then rest
      else [Failure(rules[0], body)] + rest
  }

  /** Rules are checked one by one, in declaration order: the violations of
      a concatenation are those of each part, and one rule contributes its
      error exactly when it fails. Together these fix the list, order and
      multiplicity included. */
  lemma {:induction false} ViolationsAppend(r1: seq<Rule>, r2: seq<Rule>, body: Fields, isEmail: string -> bool)
    ensures Violations(r1 + r2, body, isEmail) == Violations(r1, body, isEmail) + Violations(r2, body, isEmail)
    decreases |r1|
  {
    if r1 == [] {
      assert r1 + r2 == r2;
    } else {
      var r, rs := r1[0], r1[1..];
      var head := if Holds(r, body, isEmail) then [] else [Failure(r, body)];
      var v1, v2 := Violations(rs, body, isEmail), Violations(r2, body, isEmail);
      TailAppend(r1, r2);
      ViolationsAppend(rs, r2, body, isEmail);
      AppendAssoc(head, v1, v2);
    }
  }

  /** The first rule contributes its error exactly when it fails. */
  lemma ViolationsCons(r: Rule, rest: seq<Rule>, body: Fields, isEmail: string -> bool)
    ensures Violations([r] + rest, body, isEmail)
         == (if Holds(r, body, isEmail) then [] else [Failure(r, body)]) + Violations(rest, body, isEmail)
  {
    assert ([r] + rest)[0] == r && ([r] + rest)[1..] == rest;
  }

  /** The final middleware of a chain: 400 with every violation, or on. */
  function Validate(rules: seq<Rule>, body: Fields, isEmail: string -> bool): (g: Gate)
    ensures g.Next? <==> forall i :: 0 <= i < |rules| ==> Holds(rules[i], body, isEmail)
    ensures g.Halt? ==> g.response.status == 400 && g.response.body == ErrorsBody(Violations(rules, body, isEmail))
  {
    var errs := Violations(rules, body, isEmail);
    if errs != [] then Halt(Response(400, ErrorsBody(errs))) else Next
  }

  const UsernameRequired: string := "Username is required"
  const PasswordTooShort: string := "Password must be at least 8 characters long"
  const MinPasswordLength: nat := 8

  /** `validateData`, run before login. */
  const LoginRules: seq<Rule> := [
    Rule("username", NotEmpty, UsernameRequired),
    Rule("password", MinLength(MinPasswordLength), PasswordTooShort)
  ]

  /** `validateSignupData`, run before signup. */
  const SignupRules: seq<Rule> := [
    Rule("username", NotEmpty, UsernameRequired),
    Rule("fullname", NotEmpty, "fullname is required"),
    Rule("password", MinLength(MinPasswordLength), PasswordTooShort),
    Rule("email", IsEmail, "Invalid email address"),
    Rule("role", IsIn(Roles), "Invalid role"),
    Rule("isActive", IsBoolean, "isActive must be a boolean value")
  ]

  /** The login chain has no email rule, so it never consults an email
      validator. */
  const NoEmailCheck: string -> bool := _ => false

  function ValidateData(body: Fields): Gate {
    Validate(LoginRules, body, NoEmailCheck)
  }

  function ValidateSignupData(body: Fields, isEmail: string -> bool): Gate {
    Validate(SignupRules, body, isEmail)
  }

  /** Login data passes exactly when the username is non-empty and the
      password has at least eight characters; otherwise the 400 lists every
      broken rule, not just the first. */
  lemma ValidateDataSpec(body: Fields)
    ensures var u, p := FieldText(body, "username"), FieldText(body, "password");
      && (ValidateData(body).Next? <==> u != "" && |p| >= 8)
      && (ValidateData(body).Halt? ==> ValidateData(body).response == Response(400, ErrorsBody(
            (if u == "" then [FieldError("username", UsernameRequired, Lookup(body, "username"))] else [])
            + (if |p| < 8 then [FieldError("password", PasswordTooShort, Lookup(body, "password"))] else []))))
  {
    LoginViolations(body);
  }

  /** The login chain's errors: the username's, then the password's. */
  lemma LoginViolations(body: Fields)
    ensures var u, p := FieldText(body, "username"), FieldText(body, "password");
      Violations(LoginRules, body, NoEmailCheck)
      == (if u == "" then [FieldError("username", UsernameRequired, Lookup(body, "username"))] else [])
       + (if |p| < 8 then [FieldError("password", PasswordTooShort, Lookup(body, "password"))] else [])
  {
    var r0, r1 := LoginRules[0], LoginRules[1];
    assert Violations(LoginRules, body, NoEmailCheck)
        == (if Holds(r0, body, NoEmailCheck) then [] else [Failure(r0, body)]) + Violations([r1], body, NoEmailCheck) by {
      assert LoginRules == [r0] + [r1];
      ViolationsCons(r0, [r1], body, NoEmailCheck);
    }
    assert Violations([r1], body, NoEmailCheck) == (if Holds(r1, body, NoEmailCheck) then [] else [Failure(r1, body)]) by {
      assert [r1] == [r1] + [];
      ViolationsCons(r1, [], body, NoEmailCheck);
    }
  }

  /** Signup data passes exactly when all six rules hold. */
  lemma ValidateSignupDataSpec(body: Fields, isEmail: string -> bool)
    ensures ValidateSignupData(body, isEmail).Next? <==>
      && FieldText(body, "username") != ""
      && FieldText(body, "fullname") != ""
      && |FieldText(body, "password")| >= 8
      && isEmail(FieldText(body, "email"))
      && FieldText(body, "role") in Roles
      && FieldText(body, "isActive") in BooleanTexts
  {
    var rs := SignupRules;
    var all := forall i :: 0 <= i < |rs| ==> Holds(rs[i], body, isEmail);
    assert ValidateSignupData(body, isEmail).Next? <==> all;
    if all {
      assert Holds(rs[0], body, isEmail) && Holds(rs[1], body, isEmail) && Holds(rs[2], body, isEmail);
      assert Holds(rs[3], body, isEmail) && Holds(rs[4], body, isEmail) && Holds(rs[5], body, isEmail);
    } else {
      var i :| 0 <= i < |rs| && !Holds(rs[i], body, isEmail);
      assert i in {0, 1, 2, 3, 4, 5};
    }
  }

  // -----------------------------------------------------------------------
  // isAuth

  /** `authorization.split(' ')[1]`, when the header is present and that
      word exists and is non-empty. The first word is never looked at. */
  function TokenOf(authorization: Option<string>): (t: Option<string>)
    ensures t.Some? ==> t.value != "" && ' ' !in t.value
  {
    if authorization.None? || authorization.value == "" then None
    else
      var words := Split(authorization.value, ' ');
      if |words| >= 2 && words[1] != "" then Some(words[1]) else None
  }

  /** Any first word followed by one space and a token yields that token,
      whatever further words follow it. */
  lemma TokenOfBearer(scheme: string, token: string, rest: string)
    requires ' ' !in scheme && ' ' !in token && token != ""
    requires rest == "" || rest[0] == ' '
    ensures TokenOf(Some(scheme + " " + token + rest)) == Some(token)
  {
    var tail := token + rest;
    assert scheme + " " + token + rest == scheme + ([' '] + tail);
    SplitPrefix(scheme, [' '] + tail, ' ');
    assert ([' '] + tail)[1..] == tail;
    assert Split([' '] + tail, ' ') == [""] + Split(tail, ' ');
    SplitPrefix(token, rest, ' ');
    if rest == "" {
      assert Split(rest, ' ') == [""];
    } else {
      assert Split(rest, ' ') == [""] + Split(rest[1..], ' ');
    }
    assert token + Split(rest, ' ')[0] == token;
  }

  /** A token is found only as the text between the first space and the next
      one (or the end of the header); `TokenOfBearer` is the converse. */
  lemma TokenOfShape(authorization: Option<string>)
    requires TokenOf(authorization).Some?
    ensures exists scheme, rest ::
      && authorization == Some(scheme + " " + TokenOf(authorization).value + rest)
      && ' ' !in scheme && (rest == "" || rest[0] == ' ')
  {
    var h := authorization.value;
    var words := Split(h, ' ');
    JoinSplit(h, ' ');
    var rest := if |words| == 2 then "" else " " + Join(words[2..], ' ');
    assert Join(words[1..], ' ') == words[1] + rest by {
      if |words| > 2 { assert words[1..][1..] == words[2..]; }
    }
    assert h == words[0] + " " + words[1] + rest;
    assert TokenOf(authorization).value == words[1];
    assert ' ' !in words[0];
    assert rest == "" || rest[0] == ' ';
    assert authorization == Some(words[0] + " " + TokenOf(authorization).value + rest);
  }

  /** `isAuth`'s decision. `decode` is `jwt.verify`'s signature check under
      the process-wide secret: the token it recovers, or the library's reason
      for refusing the string. */
  function Authenticate(authorization: Option<string>, decode: string -> Result<Jwt, string>, now: int)
    : (r: Result<Claims, Response>)
    ensures r.Err? ==> r.error.status == 401
    ensures TokenOf(authorization).None? ==> r == Err(Response(401, ErrorBody("Unauthorized")))
    ensures r.Ok? ==> TokenOf(authorization).Some? && Verify(decode(TokenOf(authorization).value), now) == Ok(r.value)
    ensures TokenOf(authorization).Some? ==>
      var v := Verify(decode(TokenOf(authorization).value), now);
      && (v.Ok? ==> r == Ok(v.value))
      && (v.Err? ==> r == Err(Response(401, ErrorBody("Unauthorized " + v.error))))
  {
    var token := TokenOf(authorization);
    if token.None? then Err(Response(401, ErrorBody("Unauthorized")))
    else
      match Verify(decode(token.value), now)
      case Ok(claims) => Ok(claims)
      case Err(reason) => Err(Response(401, ErrorBody("Unauthorized " + reason)))
  }

  /** A `Bearer` header carrying a token signed less than an hour ago
      authenticates as the identity it was signed for. */
  lemma AuthenticateSigned(scheme: string, token: string, decode: string -> Result<Jwt, string>,
                           claims: Claims, signedAt: int, now: int)
    requires ' ' !in scheme && ' ' !in token && token != ""
    requires decode(token) == Ok(Sign(claims, signedAt))
    ensures now < signedAt + ExpiresIn ==> Authenticate(Some(scheme + " " + token), decode, now) == Ok(claims)
    ensures now >= signedAt + ExpiresIn ==>
      Authenticate(Some(scheme + " " + token), decode, now) == Err(Response(401, ErrorBody("Unauthorized jwt expired")))
  {
    TokenOfBearer(scheme, token, "");
    assert scheme + " " + token + "" == scheme + " " + token;
    VerifySign(claims, signedAt, now);
    assert "Unauthorized " + "jwt expired" == "Unauthorized jwt expired";
  }

  /** `isAuth`: on success it sets `req.user` and passes on; otherwise it
      answers 401 and leaves the request as it was. */
  method IsAuth(req: Request, decode: string -> Result<Jwt, string>, now: int) returns (g: Gate)
    modifies req
    ensures var a := Authenticate(req.authorization, decode, now);
      && (a.Ok? ==> g == Next && req.user == Some(a.value))
      && (a.Err? ==> g == Halt(a.error) && req.user == old(req.user))
  {
    var token := TokenOf(req.authorization);
    if token.None? {
      return Halt(Response(401, ErrorBody("Unauthorized")));
    }
    var verified := Verify(decode(token.value), now);
    if verified.Err? {
      return Halt(Response(401, ErrorBody("Unauthorized " + verified.error)));
    }
    req.user := Some(verified.value);
    g := Next;
  }

  // -----------------------------------------------------------------------
  // hasRole and isOwner

  /** `hasRole(roles)` applied to `req.user`, the identity `isAuth`
      attached: passes on exactly when its role is in the allow-list, and
      answers 403 otherwise. */
  function HasRole(roles: seq<string>, user: Claims): (g: Gate)
    ensures g.Next? <==> user.role.Some? && user.role.value in roles
    ensures g.Halt? ==> g.response == Response(403, ErrorBody("Forbidden"))
  {
    if user.role.None? || user.role.value !in roles then Halt(Response(403, ErrorBody("Forbidden"))) else Next
  }

  /** `hasRole(["Admin"])`, the allow-list of the Admin-only routes. */
  const AdminOnly: seq<string> := ["Admin"]

  /** `isAuth` followed by `hasRole(roles)`: the identity the request is
      admitted with, or the first gate's answer. */
  function Admit(authorization: Option<string>, decode: string -> Result<Jwt, string>, now: int, roles: seq<string>)
    : (r: Result<Claims, Response>)
    ensures r.Ok? <==> Authenticate(authorization, decode, now).Ok? && HasRole(roles, Authenticate(authorization, decode, now).value).Next?
    ensures r.Ok? ==> r.value == Authenticate(authorization, decode, now).value
    ensures r.Err? ==> r.error.status == 401 || r.error == Response(403, ErrorBody("Forbidden"))
    ensures Authenticate(authorization, decode, now).Err? ==> r == Err(Authenticate(authorization, decode, now).error)
    ensures Authenticate(authorization, decode, now).Ok? && r.Err? ==> r.error == Response(403, ErrorBody("Forbidden"))
  {
    match Authenticate(authorization, decode, now)
    case Err(e) => Err(e)
    case Ok(claims) =>
      var g := HasRole(roles, claims);
      if g.Halt? then Err(g.response) else Ok(claims)
  }

  /** A caller whose role is not listed never gets past the gates: it is
      answered 401 or 403, whatever else the request holds. */
  lemma UnlistedRoleNeverAdmitted(authorization: Option<string>, decode: string -> Result<Jwt, string>, now: int,
                                  roles: seq<string>, role: string)
    requires role !in roles
    requires Authenticate(authorization, decode, now).Ok? ==> Authenticate(authorization, decode, now).value.role == Some(role)
    ensures Admit(authorization, decode, now, roles).Err?
    ensures Authenticate(authorization, decode, now).Ok? ==>
      Admit(authorization, decode, now, roles).error == Response(403, ErrorBody("Forbidden"))
  {
  }

  /** The two gates run in a row. `req.user` is set as soon as `isAuth`
      passes, so it holds the caller even when `hasRole` then answers 403; on
      a 401 it is left as it was. */
  method IsAuthHasRole(req: Request, decode: string -> Result<Jwt, string>, now: int, roles: seq<string>)
    returns (g: Gate)
    modifies req
    ensures var a := Admit(req.authorization, decode, now, roles);
      && (a.Ok? ==> g == Next)
      && (a.Err? ==> g == Halt(a.error))
    ensures var v := Authenticate(req.authorization, decode, now);
      && (v.Ok? ==> req.user == Some(v.value))
      && (v.Err? ==> req.user == old(req.user))
  {
    g := IsAuth(req, decode, now);
    if g.Halt? {
      return;
    }
    g := HasRole(roles, req.user.value);
  }

  /** What reading `owner.toString()` of an item without owner throws. */
  const NoOwnerMessage: string := "Cannot read properties of undefined (reading 'toString')"

  /** `isOwner` for the item `id` and the identity `user` (`req.user`).
      `failure` is the message of an error the store lookup throws. A missing
      item is 404 before ownership is looked at; access is granted on
      ownership alone, whatever the role. */
  function IsOwner(docs: map<Id, Item>, id: Id, user: Claims, failure: Option<string>): (g: Gate)
    ensures failure.Some? ==> g == Halt(Response(500, ErrorBody("Server error " + failure.value)))
    ensures failure.None? && id !in docs ==> g == Halt(Response(404, ErrorBody("Item not found")))
    ensures g.Next? <==> failure.None? && id in docs && docs[id].owner == Some(user.id)
    ensures failure.None? && id in docs && docs[id].owner.None? ==>
      g == Halt(Response(500, ErrorBody("Server error " + NoOwnerMessage)))
    ensures failure.None? && id in docs && docs[id].owner.Some? ==>
      (g == Halt(Response(403, ErrorBody("Forbidden"))) <==> docs[id].owner.value != user.id)
  {
    if failure.Some? then Halt(Response(500, ErrorBody("Server error " + failure.value)))
    else if id !in docs then Halt(Response(404, ErrorBody("Item not found")))
    else
      var item := docs[id];
      if item.owner.None? then Halt(Response(500, ErrorBody("Server error " + NoOwnerMessage)))
      else if item.owner.value != user.id then Halt(Response(403, ErrorBody("Forbidden")))
      else Next
  }

  /** Being an Admin does not stand in for ownership. */
  lemma AdminIsNotOwner(docs: map<Id, Item>, id: Id, user: Claims)
    requires user.role == Some("Admin")
    requires id in docs && docs[id].owner.Some? && docs[id].owner.value != user.id
    ensures IsOwner(docs, id, user, None) == Halt(Response(403, ErrorBody("Forbidden")))
  {
  }
}
