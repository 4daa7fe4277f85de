/** The `/api/v1/auth` routes: login, which trades a username and a password
    for a one-hour token, and signup, which creates a user with a hashed
    password. Neither needs a token. */
module AuthRoutes {
  import opened Base
  import opened Crypto
  import opened Store
  import opened UserModel
  import opened Http
  import opened AuthMiddleware

  /** `User.findOne({ username })`: the first stored user, in store order,
      whose username is `username`. */
  function FindOne(entries: seq<(Id, User)>, username: Option<string>): (r: Option<(Id, User)>)
    ensures r.None? <==> forall i :: 0 <= i < |entries| ==> entries[i].1.username != username
    ensures r.Some? ==> r.value.1.username == username
    ensures r.Some? ==> exists i :: 0 <= i < |entries| && entries[i] == r.value
                                    && forall j :: 0 <= j < i ==> entries[j].1.username != username
  {
    if entries == [] then None
    else if entries[0].1.username == username then Some(entries[0])
    else
      var r := FindOne(entries[1..], username);
      assert forall i :: 1 <= i < |entries| ==> entries[i] == entries[1..][i - 1];
      if r.Some? then
        var k :| 0 <= k < |entries[1..]| && entries[1..][k] == r.value
                 && forall j :: 0 <= j < k ==> entries[1..][j].1.username != username;
        assert entries[k + 1] == r.value;
        r
      else r
  }

  /** With the username index unique, the lookup finds the one user holding
      that username, wherever it sits in the store. */
  lemma FindOneUnique(users: Collection<User>, id: Id)
    requires users.Valid() && UniqueKeys(users.docs) && id in users.docs
    ensures FindOne(users.Contents(), users.docs[id].username) == Some((id, users.docs[id]))
  {
    var es := users.Contents();
    var i :| 0 <= i < |es| && es[i].0 == id;
    FindOneListed(es, users.docs, i);
  }

  /** The lookup over a listing of `docs` that holds `es[i]`. */
  lemma FindOneListed(es: seq<(Id, User)>, docs: map<Id, User>, i: nat)
    requires UniqueKeys(docs)
    requires forall j :: 0 <= j < |es| ==> es[j].0 in docs && es[j].1 == docs[es[j].0]
    requires i < |es|
    ensures FindOne(es, es[i].1.username) == Some(es[i])
  {
    var name := es[i].1.username;
    var r := FindOne(es, name);
    assert r.Some? by { assert es[i].1.username == name; }
    var k :| 0 <= k < |es| && es[k] == r.value;
    var a, b := es[k].0, es[i].0;
    assert docs[a].username == name == docs[b].username;
    assert a == b;
  }

  // -----------------------------------------------------------------------
  // POST /auth/login

  /** The handler's answer, after `validateData`. `failure` is the message
      of an error the lookup throws. */
  function Login(users: Collection<User>, body: Fields, now: int, failure: Option<string>): (r: Response)
    reads users
    requires users.Valid()
    ensures ValidateData(body).Halt? ==> r == ValidateData(body).response
    ensures ValidateData(body).Next? && failure.Some? ==> r == Response(400, ErrBody("400 Not Found"))
    ensures ValidateData(body).Next? && failure.None? ==>
      var username, password := FieldText(body, "username"), FieldText(body, "password");
      var found := FindOne(users.Contents(), Some(username));
      && (found.None? ==> r == Response(400, ErrBody("user not found")))
      && (found.Some? && found.value.1.password.None? ==> r == Response(400, ErrBody("400 Not Found")))
      && (found.Some? && found.value.1.password.Some? && !Compare(password, found.value.1.password.value) ==>
            r == Response(400, ErrBody("invalid password")))
      && (found.Some? && found.value.1.password.Some? && Compare(password, found.value.1.password.value) ==>
            r == Response(200, TokenBody(Sign(Claims(found.value.0, username, found.value.1.role), now))))
    ensures r.status == 200 || r.status == 400
  {
    var g := ValidateData(body);
    if g.Halt? then g.response
    else if failure.Some? then Response(400, ErrBody("400 Not Found"))
    else
      var username, password := FieldText(body, "username"), FieldText(body, "password");
      match FindOne(users.Contents(), Some(username))
      case None => Response(400, ErrBody("user not found"))
      case Some((id, user)) =>
        // bcrypt.compare throws on a missing hash
        if user.password.None? then Response(400, ErrBody("400 Not Found"))
        else if !Compare(password, user.password.value) then Response(400, ErrBody("invalid password"))
        else Response(200, TokenBody(Sign(Claims(id, username, user.role), now)))
  }

  /** A user stored by signup logs in, under its own id and role, with any
      password that agrees on its first 72 characters with the one it signed
      up with (the password itself among them), and with no other. */
  lemma {:induction false} LoginAfterSignup(users: Collection<User>, id: Id, fields: User, salt: nat,
                                           body: Fields, now: int)
    requires users.Valid() && UniqueKeys(users.docs)
    requires id in users.docs && users.docs[id] == Created(fields, salt)
    requires fields.username.Some? && fields.password.Some? && fields.password.value.Plain?
    requires "username" in body && body["username"] == fields.username.value && fields.username.value != ""
    requires "password" in body && |body["password"]| >= MinPasswordLength
    ensures var r := Login(users, body, now, None);
      (Key(body["password"]) == Key(fields.password.value.text) ==>
         r == Response(200, TokenBody(Sign(Claims(id, fields.username.value, fields.role), now))))
      && (Key(body["password"]) != Key(fields.password.value.text) ==> r == Response(400, ErrBody("invalid password")))
  {
    ValidateDataSpec(body);
    FindOneUnique(users, id);
    CompareHash(fields.password.value.text, body["password"], salt);
  }

  /** The token login issues authenticates its holder, as the user found,
      for one hour. */
  lemma LoginTokenAuthenticates(users: Collection<User>, body: Fields, signedAt: int, failure: Option<string>,
                                scheme: string, token: string, decode: string -> Result<Jwt, string>, now: int)
    requires users.Valid()
    requires ' ' !in scheme && ' ' !in token && token != ""
    requires now < signedAt + ExpiresIn
    ensures var r := Login(users, body, signedAt, failure);
      var found := FindOne(users.Contents(), Some(FieldText(body, "username")));
      r.status == 200 && decode(token) == Ok(r.body.token) ==>
        && found.Some?
        && Authenticate(Some(scheme + " " + token), decode, now)
           == Ok(Claims(found.value.0, FieldText(body, "username"), found.value.1.role))
  {
    var r := Login(users, body, signedAt, failure);
    if r.status == 200 && decode(token) == Ok(r.body.token) {
      var found := FindOne(users.Contents(), Some(FieldText(body, "username")));
      AuthenticateSigned(scheme, token, decode, Claims(found.value.0, FieldText(body, "username"), found.value.1.role),
                         signedAt, now);
    }
  }

  // -----------------------------------------------------------------------
  // POST /auth/signup

  /** Mongoose's cast of a text to `Boolean`: `None` when the text is not one
      it knows. */
  function CastBoolean(text: string): Option<bool> {
    if text in ["true", "1", "yes"] then Some(true)
    else if text in ["false", "0", "no"] then Some(false)
    else None
  }

  /** Every text `isBoolean()` accepts casts, to the value it spells. */
  lemma CastBooleanTexts(text: string)
    requires text in BooleanTexts
    ensures CastBoolean(text) == Some(text == "true" || text == "1")
  {
  }

  /** The document `User.create({ username, fullname, email, password, role,
      isActive })` is given. */
  function SignupFields(body: Fields): User {
    User(Lookup(body, "username"), Lookup(body, "fullname"), Lookup(body, "email"),
         if "password" in body then Some(Plain(body["password"])) else None,
         Lookup(body, "role"), [], None,
         if "isActive" in body then CastBoolean(body["isActive"]) else None)
  }

  /** Once `validateSignupData` passes, every path the schema cares about is
      set and the role is in the enum, so the schema can only refuse the
      email: the two email checks are the one place the route's validation
      and the schema's can disagree. */
  lemma SignupFieldsShape(body: Fields, isEmail: string -> bool)
    requires ValidateSignupData(body, isEmail).Next?
    ensures var f := SignupFields(body);
      && f.username.Some? && f.username.value != ""
      && f.password.Some? && f.password.value.Plain? && |f.password.value.text| >= MinPasswordLength
      && f.role.Some? && f.role.value in Roles
      && f.isActive.Some?
      && (ValidationErrors(f) == [] <==> "email" in body && EmailPattern(body["email"]))
  {
    ValidateSignupDataSpec(body, isEmail);
    var f := SignupFields(body);
    CastBooleanTexts(body["isActive"]);
    ValidationErrorsEmpty(f);
  }

  /** The handler's answer, after `validateSignupData`. `failure` is the
      message of an error the username lookup throws; `salt` and
      `hashFailure` are those of the pre-save hook. On success the new user
      is stored with a hashed password and echoed; on every failure nothing
      is stored. */
  method Signup(users: Collection<User>, body: Fields, isEmail: string -> bool,
                salt: nat, hashFailure: Option<string>, failure: Option<string>) returns (r: Response)
    requires users.Valid() && UniqueKeys(users.docs)
    modifies users
    ensures users.Valid() && UniqueKeys(users.docs)
    ensures ValidateSignupData(body, isEmail).Halt? ==>
      r == ValidateSignupData(body, isEmail).response && unchanged(users)
    ensures ValidateSignupData(body, isEmail).Next? && failure.Some? ==>
      r == Response(404, ErrBody(failure.value)) && unchanged(users)
    ensures ValidateSignupData(body, isEmail).Next? && failure.None? ==>
      var f := SignupFields(body);
      if FindOne(old(users.Contents()), f.username).Some? then
        r == Response(400, ErrBody("User with this username exists!!")) && unchanged(users)
      else if ValidationErrors(f) != [] then
        r == Response(404, ErrBody(Message(ValidationFailed(ValidationErrors(f))))) && unchanged(users)
      else if hashFailure.Some? then
        r == Response(404, ErrBody(hashFailure.value)) && unchanged(users)
      else if Clashes(old(users.docs), f, None) then
        r == Response(404, ErrBody(Message(DuplicateKey))) && unchanged(users)
      else
        && r.status == 201 && r.body.SignedUpBody? && r.body.created == Created(f, salt)
        && r.body.newId !in old(users.docs)
        && users.docs == old(users.docs)[r.body.newId := Created(f, salt)]
        && users.ids == old(users.ids) + [r.body.newId]
  {
    var g := ValidateSignupData(body, isEmail);
    if g.Halt? {
      return g.response;
    }
    if failure.Some? {
      return Response(404, ErrBody(failure.value));
    }
    var f := SignupFields(body);
    SignupFieldsShape(body, isEmail);
    if FindOne(users.Contents(), f.username).Some? {
      return Response(400, ErrBody("User with this username exists!!"));
    }
    var created := Create(users, f, salt, hashFailure);
    if created.Err? {
      return Response(404, ErrBody(Message(created.error)));
    }
    r := Response(201, SignedUpBody(created.value, Created(f, salt)));
  }

  /** A successful signup echoes what was sent, and stores a password that
      exactly the candidates agreeing with the password sent on its first 72
      characters match. */
  lemma SignupEchoesBody(body: Fields, isEmail: string -> bool, salt: nat, candidate: string)
    requires ValidateSignupData(body, isEmail).Next?
    ensures var u := Created(SignupFields(body), salt);
      && "username" in body && u.username == Some(body["username"])
      && "fullname" in body && u.fullname == Some(body["fullname"])
      && u.email == Lookup(body, "email")
      && "role" in body && u.role == Some(body["role"])
      && "isActive" in body && u.isActive == Some(body["isActive"] == "true" || body["isActive"] == "1")
      && "password" in body
      && u.password.Some? && u.password.value.Hashed?
      && (Compare(candidate, u.password.value) <==> Key(candidate) == Key(body["password"]))
  {
    SignupFieldsShape(body, isEmail);
    ValidateSignupDataSpec(body, isEmail);
    CastBooleanTexts(body["isActive"]);
    CompareHash(body["password"], candidate, salt);
  }
}
