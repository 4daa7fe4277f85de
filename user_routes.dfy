/** The `/api/v1/users` routes, all for Admins only: a paginated search by
    username, and read, update and deletion by id. Updates go straight to the
    store: no schema validator and no pre-save hook runs on them. */
module UserRoutes {
  import opened Base
  import opened Crypto
  import opened Store
  import opened UserModel
  import opened Paging
  import opened Http
  import opened AuthMiddleware

  /** The paths a PUT body may carry. */
  datatype UserPatch = UserPatch(
    username: Option<string>,
    fullname: Option<string>,
    email: Option<string>,
    password: Option<string>,
    role: Option<string>,
    isActive: Option<bool>)

  /** `findByIdAndUpdate(id, body)`: the body's paths are set as given. */
  function ApplyPatch(u: User, p: UserPatch): User {
    u.(username := if p.username.Some? then p.username else u.username,
       fullname := if p.fullname.Some? then p.fullname else u.fullname,
       email := if p.email.Some? then p.email else u.email,
       password := if p.password.Some? then Some(Plain(p.password.value)) else u.password,
       role := if p.role.Some? then p.role else u.role,
       isActive := if p.isActive.Some? then p.isActive else u.isActive)
  }

  /** Because the hook does not run on this path, a password sent in a PUT
      is stored as sent, and no password then matches it at login; a role
      outside the enum is stored too. */
  lemma PatchSkipsHookAndValidation(u: User, p: UserPatch, candidate: string)
    requires p.password.Some?
    ensures ApplyPatch(u, p).password == Some(Plain(p.password.value))
    ensures !Compare(candidate, ApplyPatch(u, p).password.value)
    ensures p.role.Some? ==> ApplyPatch(u, p).role == p.role
  {
  }

  /** The path the user search looks at. */
  function UsernameOf(u: User): Option<string> {
    u.username
  }

  /** GET /users. `failure` is the message of an error either store query
      throws. */
  method List(req: Request, decode: string -> Result<Jwt, string>, now: int,
              users: Collection<User>, query: ListQuery, failure: Option<string>) returns (r: Response)
    requires users.Valid()
    requires OrDefault(query.page, DefaultPage) >= 1 && OrDefault(query.limit, DefaultLimit) >= 1
    modifies req
    ensures var a := Admit(req.authorization, decode, now, AdminOnly);
      && (a.Err? ==> r == a.error)
      && (a.Ok? && failure.Some? ==> r == Response(500, ErrorBody("Server error")))
      && (a.Ok? && failure.None? ==> r == Response(200, UsersBody(
            Paginate(Search(users.Contents(), UsernameOf, query.q),
                     OrDefault(query.page, DefaultPage), OrDefault(query.limit, DefaultLimit)))))
  {
    var g := IsAuthHasRole(req, decode, now, AdminOnly);
    if g.Halt? {
      return g.response;
    }
    if failure.Some? {
      return Response(500, ErrorBody("Server error"));
    }
    var matching := Search(users.Contents(), UsernameOf, query.q);
    r := Response(200, UsersBody(Paginate(matching, OrDefault(query.page, DefaultPage), OrDefault(query.limit, DefaultLimit))));
  }

  /** GET /users/:id. */
  method Get(req: Request, decode: string -> Result<Jwt, string>, now: int,
             users: Collection<User>, id: Id, failure: Option<string>) returns (r: Response)
    modifies req
    ensures var a := Admit(req.authorization, decode, now, AdminOnly);
      && (a.Err? ==> r == a.error)
      && (a.Ok? && failure.Some? ==> r == Response(500, ErrorBody("Server error")))
      && (a.Ok? && failure.None? && id !in users.docs ==> r == Response(404, ErrorBody("User not found")))
      && (a.Ok? && failure.None? && id in users.docs ==> r == Response(200, UserBody(id, users.docs[id])))
  {
    var g := IsAuthHasRole(req, decode, now, AdminOnly);
    if g.Halt? {
      return g.response;
    }
    if failure.Some? {
      return Response(500, ErrorBody("Server error"));
    }
    var found := users.Get(id);
    if found.None? {
      return Response(404, ErrorBody("User not found"));
    }
    r := Response(200, UserBody(id, found.value));
  }

  /** PUT /users/:id: the body is applied as given, with no path forced; a
      write that would break a unique index is refused with 400 like any
      other store error. Other users are untouched. */
  method Put(req: Request, decode: string -> Result<Jwt, string>, now: int,
             users: Collection<User>, id: Id, patch: UserPatch, failure: Option<string>) returns (r: Response)
    requires users.Valid() && UniqueKeys(users.docs)
    modifies req, users
    ensures users.Valid() && UniqueKeys(users.docs)
    ensures var a := Admit(req.authorization, decode, now, AdminOnly);
      && (a.Err? ==> r == a.error && unchanged(users))
      && (a.Ok? && failure.Some? ==> r == Response(400, ErrorBody("Invalid request")) && unchanged(users))
      && (a.Ok? && failure.None? && id !in old(users.docs) ==>
            r == Response(404, ErrorBody("User not found")) && unchanged(users))
      && (a.Ok? && failure.None? && id in old(users.docs) ==>
            var updated := ApplyPatch(old(users.docs)[id], patch);
            if Clashes(old(users.docs), updated, Some(id))
            then r == Response(400, ErrorBody("Invalid request")) && unchanged(users)
            else r == Response(200, UserBody(id, updated))
                 && users.docs == old(users.docs)[id := updated] && users.ids == old(users.ids))
  {
    var g := IsAuthHasRole(req, decode, now, AdminOnly);
    if g.Halt? {
      return g.response;
    }
    if failure.Some? {
      return Response(400, ErrorBody("Invalid request"));
    }
    var found := users.Get(id);
    if found.None? {
      return Response(404, ErrorBody("User not found"));
    }
    var updated := ApplyPatch(found.value, patch);
    if Clashes(users.docs, updated, Some(id)) {
      return Response(400, ErrorBody("Invalid request"));
    }
    ClashesBreaksUnique(users.docs, id, updated);
    users.Put(id, updated);
    r := Response(200, UserBody(id, updated));
  }

  /** DELETE /users/:id: removes that user only and answers 204. */
  method Delete(req: Request, decode: string -> Result<Jwt, string>, now: int,
                users: Collection<User>, id: Id, failure: Option<string>) returns (r: Response)
    requires users.Valid() && UniqueKeys(users.docs)
    modifies req, users
    ensures users.Valid() && UniqueKeys(users.docs)
    ensures var a := Admit(req.authorization, decode, now, AdminOnly);
      && (a.Err? ==> r == a.error && unchanged(users))
      && (a.Ok? && failure.Some? ==> r == Response(500, ErrorBody("Server error")) && unchanged(users))
      && (a.Ok? && failure.None? && id !in old(users.docs) ==>
            r == Response(404, ErrorBody("User not found")) && unchanged(users))
      && (a.Ok? && failure.None? && id in old(users.docs) ==>
            r == Response(204, NoContent) && users.docs == old(users.docs) - {id}
            && users.ids == Without(old(users.ids), id))
  {
    var g := IsAuthHasRole(req, decode, now, AdminOnly);
    if g.Halt? {
      return g.response;
    }
    if failure.Some? {
      return Response(500, ErrorBody("Server error"));
    }
    if id !in users.docs {
      return Response(404, ErrorBody("User not found"));
    }
    users.Remove(id);
    r := Response(204, NoContent);
  }
}
