/** The user schema: its email validator, its role enum, its unique indexes,
    and the pre-save hook that hashes a changed password. */
module UserModel {
  import opened Base
  import opened Text
  import opened Crypto
  import opened Store

  /** A user document. */
  datatype User = User(
    username: Option<string>,
    fullname: Option<string>,
    email: Option<string>,
    password: Option<Secret>,
    role: Option<string>,
    orders: seq<Id>,
    joinedAt: Option<int>,
    isActive: Option<bool>)

  /** The values of the `role` enum. */
  const Roles: seq<string> := ["Admin", "Owner", "Client"]

  // ---------------------------------------------------------------------
  // The email validator /^[^\s@]+@[^\s@]+\.[^\s@]+$/

  /** A character `[^\s@]` matches. */
  predicate Ordinary(c: char) {
    !IsSpace(c) && c != '@'
  }

  predicate AllOrdinary(s: string) {
    forall k :: 0 <= k < |s| ==> Ordinary(s[k])
  }

  /** The regular expression matches `s` with its `@` at index `at` and the
      `\.` at index `dot`. */
  predicate MatchesAt(s: string, at: nat, dot: nat) {
    && 0 < at && at + 1 < dot && dot + 1 < |s|
    && s[at] == '@' && s[dot] == '.'
    && AllOrdinary(s[..at]) && AllOrdinary(s[at + 1..dot]) && AllOrdinary(s[dot + 1..])
  }

  /** The regular expression matches `s`. */
  ghost predicate EmailPattern(s: string) {
    exists at: nat, dot: nat :: MatchesAt(s, at, dot)
  }

  /** The first index of `c` in `s`. */
  function IndexOf(s: string, c: char): (r: Option<nat>)
    ensures r.Some? ==> r.value < |s| && s[r.value] == c && c !in s[..r.value]
    ensures r.None? ==> c !in s
  {
    if s == [] then None
    else if s[0] == c then Some(0)
    else
      var r := IndexOf(s[1..], c);
      if r.None? then None
      else
        assert s[..r.value + 1] == [s[0]] + s[1..][..r.value];
        Some(r.value + 1)
  }

  /** `s` has a `.` with at least one character on each side. */
  predicate InnerDot(s: string) {
    exists k :: 0 < k < |s| - 1 && s[k] == '.'
  }

  /** The validator as a reader would state it: a non-empty local part, one
      `@`, and a domain with a dot that has text on both sides, with no
      whitespace and no second `@` anywhere. */
  predicate IsEmail(s: string) {
    var at := IndexOf(s, '@');
    && at.Some? && at.value > 0
    && AllOrdinary(s[..at.value]) && AllOrdinary(s[at.value + 1..])
    && InnerDot(s[at.value + 1..])
  }

  /** The reading above is exactly what the regular expression accepts. */
  lemma IsEmailMatchesPattern(s: string)
    ensures IsEmail(s) <==> EmailPattern(s)
  {
    if IsEmail(s) {
      IsEmailMatches(s);
    }
    if EmailPattern(s) {
      var at: nat, dot: nat :| MatchesAt(s, at, dot);
      MatchesIsEmail(s, at, dot);
    }
  }

  /** An address the reader's check accepts has a match. */
  lemma IsEmailMatches(s: string)
    requires IsEmail(s)
    ensures EmailPattern(s)
  {
    var at := IndexOf(s, '@').value;
    var domain := s[at + 1..];
    var k :| 0 < k < |domain| - 1 && domain[k] == '.';
    var dot := at + 1 + k;
    assert s[at + 1..dot] == domain[..k];
    assert s[dot + 1..] == domain[k + 1..];
    assert MatchesAt(s, at, dot);
  }

  /** A match puts the `@` at the first one, and the rest passes the check. */
  lemma MatchesIsEmail(s: string, at: nat, dot: nat)
    requires MatchesAt(s, at, dot)
    ensures IsEmail(s)
  {
    assert '@' !in s[..at] by {
      forall k | 0 <= k < at ensures s[..at][k] != '@' { assert Ordinary(s[..at][k]); }
    }
    assert s[..at + 1] == s[..at] + [s[at]];
    assert IndexOf(s, '@') == Some(at);
    var domain := s[at + 1..];
    forall k | 0 <= k < |domain| ensures Ordinary(domain[k]) {
      if k < dot - at - 1 { assert domain[k] == s[at + 1..dot][k]; }
      else if k > dot - at - 1 { assert domain[k] == s[dot + 1..][k - (dot - at)]; }
    }
    assert domain[dot - at - 1] == '.';
  }

  /** A valid address holds exactly one `@`. */
  lemma IsEmailOneAt(s: string)
    requires IsEmail(s)
    ensures exists at :: 0 <= at < |s| && s[at] == '@' && forall k :: 0 <= k < |s| && k != at ==> s[k] != '@'
  {
    var at := IndexOf(s, '@').value;
    forall k | 0 <= k < |s| && k != at ensures s[k] != '@' {
      if k < at { assert s[k] == s[..at][k]; } else { assert s[k] == s[at + 1..][k - at - 1]; }
    }
  }

  // ---------------------------------------------------------------------
  // Document validation, run when a document is saved

  /** One failed schema validator. */
  datatype ValidatorError = ValidatorError(path: string, message: string)

  /** The failed validators of a document being saved, in schema order, at
      most one per path: `email` is required (an empty string counts as
      missing) and must match the pattern; `role`, when present, must be in
      the enum. */
  function ValidationErrors(u: User): (errs: seq<ValidatorError>)
  {
    (if u.email.None? || u.email.value == "" then [ValidatorError("email", "Path `email` is required.")]
     else if !IsEmail(u.email.value) then [ValidatorError("email", "Invalid email address")]
     else [])
    + (if u.role.Some? && u.role.value !in Roles
       then [ValidatorError("role", "`" + u.role.value + "` is not a valid enum value for path `role`.")]
       else [])
  }

  /** A document passes validation exactly when it has an email the pattern
      accepts and a role that is absent or in the enum. */
  lemma ValidationErrorsEmpty(u: User)
    ensures ValidationErrors(u) == [] <==>
      u.email.Some? && EmailPattern(u.email.value) && (u.role.None? || u.role.value in Roles)
  {
    if u.email.Some? {
      IsEmailMatchesPattern(u.email.value);
      if u.email.value == "" { assert !IsEmail(""); }
    }
  }

  // ---------------------------------------------------------------------
  // Unique indexes on `username` and `email`

  /** No two stored users share a username or an email. */
  predicate UniqueKeys(docs: map<Id, User>) {
    forall a, b :: a in docs && b in docs && a != b ==>
      docs[a].username != docs[b].username && docs[a].email != docs[b].email
  }

  /** A stored user other than `self` already holds `u`'s username or email. */
  predicate Clashes(docs: map<Id, User>, u: User, self: Option<Id>) {
    exists k :: k in docs && Some(k) != self && (docs[k].username == u.username || docs[k].email == u.email)
  }

  /** The unique indexes accept a write exactly when it keeps them unique. */
  lemma ClashesBreaksUnique(docs: map<Id, User>, id: Id, u: User)
    requires UniqueKeys(docs)
    ensures UniqueKeys(docs[id := u]) <==> !Clashes(docs, u, Some(id))
  {
    var d := docs[id := u];
    if Clashes(docs, u, Some(id)) {
      var k :| k in docs && Some(k) != Some(id) && (docs[k].username == u.username || docs[k].email == u.email);
      assert d[k] == docs[k] && d[id] == u;
    }
  }

  // ---------------------------------------------------------------------
  // The pre-save hook

  /** The message bcrypt throws when asked to hash a missing value. */
  const MissingArguments: string := "data and salt arguments required"

  /** A document in memory, with the change tracking Mongoose keeps. */
  class UserDoc {
    var data: User
    /** `isModified('password')`. */
    var passwordModified: bool

    /** `new User(data)`: every path given is marked modified. */
    constructor (data: User)
      ensures this.data == data && passwordModified == data.password.Some?
    {
      this.data := data;
      passwordModified := data.password.Some?;
    }

    /** The `pre('save')` hook. When the password was not modified it does
        nothing; otherwise it replaces it by its digest under a fresh `salt`,
        or reports the failure of hashing, which aborts the save. */
    method PreSave(salt: nat, hashFailure: Option<string>) returns (err: Option<string>)
      modifies this`data
      ensures !passwordModified ==> err == None && data == old(data)
      ensures passwordModified && old(data).password.None? ==> err == Some(MissingArguments) && data == old(data)
      ensures passwordModified && old(data).password.Some? && hashFailure.Some? ==>
        err == hashFailure && data == old(data)
      ensures passwordModified && old(data).password.Some? && hashFailure.None? ==>
        err == None && data == old(data).(password := Some(Hash(old(data).password.value, salt)))
    {
      if !passwordModified {
        return None;
      }
      if data.password.None? {
        return Some(MissingArguments);
      }
      if hashFailure.Some? {
        return hashFailure;
      }
      var hashed := Hash(data.password.value, salt);
      data := data.(password := Some(hashed));
      err := None;
    }
  }

  /** Why a write to the user collection failed. */
  datatype StoreError =
    | ValidationFailed(errors: seq<ValidatorError>)
    | HookFailed(message: string)
    | DuplicateKey

  /** `error.message` of a failed write. */
  function Message(e: StoreError): string {
    match e
    case ValidationFailed(errs) => "User validation failed: " + Describe(errs)
    case HookFailed(m) => m
    case DuplicateKey => "E11000 duplicate key error"
  }

  function Describe(errs: seq<ValidatorError>): string {
    if errs == [] then ""
    else errs[0].path + ": " + errs[0].message + (if |errs| == 1 then "" else ", " + Describe(errs[1..]))
  }

  /** What `User.create(fields)` stores when it succeeds: the password, if
      any, as its digest. */
  function Created(fields: User, salt: nat): User {
    if fields.password.Some? then fields.(password := Some(Hash(fields.password.value, salt))) else fields
  }

  /** `User.create(fields)`: validation, then the pre-save hook, then the
      unique indexes, then the insert. Any failure leaves the collection as it
      was. */
  method Create(users: Collection<User>, fields: User, salt: nat, hashFailure: Option<string>)
    returns (r: Result<Id, StoreError>)
    requires users.Valid() && UniqueKeys(users.docs)
    modifies users
    ensures users.Valid() && UniqueKeys(users.docs)
    ensures ValidationErrors(fields) != [] ==> r == Err(ValidationFailed(ValidationErrors(fields)))
    ensures ValidationErrors(fields) == [] && fields.password.Some? && hashFailure.Some? ==>
      r == Err(HookFailed(hashFailure.value))
    ensures ValidationErrors(fields) == [] && (fields.password.None? || hashFailure.None?) ==>
      (r == Err(DuplicateKey) <==> Clashes(old(users.docs), fields, None)) && (r.Err? ==> r == Err(DuplicateKey))
    ensures r.Ok? ==> r.value !in old(users.docs) && users.docs == old(users.docs)[r.value := Created(fields, salt)]
                      && users.ids == old(users.ids) + [r.value]
    ensures r.Err? ==> unchanged(users)
  {
    var errs := ValidationErrors(fields);
    if errs != [] {
      return Err(ValidationFailed(errs));
    }
    var doc := new UserDoc(fields);
    var hookError := doc.PreSave(salt, hashFailure);
    if hookError.Some? {
      return Err(HookFailed(hookError.value));
    }
    assert doc.data == Created(fields, salt);
    if Clashes(users.docs, doc.data, None) {
      return Err(DuplicateKey);
    }
    var id := users.Insert(doc.data);
    ClashesBreaksUnique(old(users.docs), id, doc.data);
    r := Ok(id);
  }
}
