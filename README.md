# node-ecommerce-api: a Dafny model of the request pipeline

This project models the decision logic of a small Express/Mongoose
e-commerce API. Every request passes through a short chain of middleware
gates. Each gate either answers with a status and a JSON body or hands the
request on to the next step:

- `validateData` and `validateSignupData` are field-rule chains;
- `isAuth` checks the bearer token;
- `hasRole` checks the caller's role against an allow-list;
- `isOwner` checks the item's owner.

After the gates a route handler reads or changes one MongoDB collection and
answers. The model covers:

- the gates;
- the paginated search shared by the item and user listings;
- the create/read/update/delete handlers for items, users and orders;
- login and signup;
- the user schema: the email pattern, the role enum, the unique indexes and
  the pre-save hook that hashes a changed password.

The model has these parts:

- A collection is a `Store.Collection<T>` object. It holds a map from
  identifier to document and the list of identifiers in store order.
  `Insert`, `Put` and `Remove` change it in place.
- The request is an `AuthMiddleware.Request` object whose `user` field
  `isAuth` assigns.
- A gate returns `Next` or `Halt(response)`.
- Each handler that changes state is a method. Its postcondition gives the
  full decision table: which response is sent in which case, and what the
  collection holds afterwards. It also keeps a collection invariant:
  - every item has an owner;
  - usernames and emails are unique;
  - every order status is in the enum.
- Handlers that change nothing are functions.

Some behaviour comes from outside the code and enters as parameters or
symbolic values:

- **bcrypt** is symbolic. A digest is `Hashed(input, salt)`. bcrypt reads
  only the first 72 bytes of a password, so `Compare` accepts exactly the
  candidates that agree with the hashed input on its first 72 characters
  (`Crypto.Key`).
- **jsonwebtoken**: `sign` builds `Jwt(claims, now + 3600)`. The signature
  check of `verify` under the process secret is a `decode` parameter; the
  model itself checks expiry.
- **Other inputs** are parameters:
  - the clock (`now`);
  - the salt;
  - the validation library's `isEmail`;
  - any error the database throws (`failure`, `lookupFailure`, `hashFailure`).

## Model

| member | source | states |
|---|---|---|
| Text.Split | middlewares/authMiddleware.js:47 | `split(' ')` yields at least one piece, none containing the separator, and exactly one piece iff the separator does not occur |
| Text.JoinSplit | middlewares/authMiddleware.js:47 | joining the pieces of a split with the separator gives back the header |
| Text.SplitJoin | middlewares/authMiddleware.js:47 | splitting a join of separator-free pieces gives back the pieces |
| Text.LowerAll | routes/itemRoutes.js:84 | case folding (`$options: 'i'`) keeps the length and folds every character |
| Text.ContainsOccurs | routes/itemRoutes.js:84 | the search finds a term exactly when it occurs at some index |
| Crypto.Hash | models/user.js:39-41 | a digest is never the plaintext it was made from |
| Crypto.Key | routes/authRoutes.js:67 | the part of a password bcrypt reads is its first 72 characters: the whole password when it is no longer than that, otherwise the prefix of exactly 72 characters |
| Crypto.CompareHash | routes/authRoutes.js:67 | `compare(q, hash(p, salt))` holds iff `q` and `p` agree on their first 72 characters; so `p` itself matches, and for passwords of at most 72 characters only `p` does; a stored plaintext is matched by no password, itself included |
| Crypto.CompareIgnoresTail | routes/authRoutes.js:67 | two passwords sharing their first 72 characters match each other's digest, whatever follows |
| Crypto.Sign | routes/authRoutes.js:80 | the token carries exactly the payload and expires one hour after signing |
| Crypto.VerifySign | middlewares/authMiddleware.js:55 | a signed token verifies to its payload before expiry and is refused as "jwt expired" from then on |
| Store.Collection.Contents | routes/itemRoutes.js:94 | `find()` lists every stored document exactly once, with its own identifier |
| Store.Collection.Get | routes/itemRoutes.js:241 | `findById` finds a document iff the identifier is stored |
| Store.Collection.Insert | routes/itemRoutes.js:176 | `create` stores the document under a fresh identifier and changes nothing else |
| Store.Collection.Put | routes/itemRoutes.js:332 | an update overwrites that one document and keeps the order |
| Store.Collection.Remove | routes/itemRoutes.js:385 | a delete removes exactly that identifier |
| Records.UpdateItemLaws | routes/itemRoutes.js:332 | an update sets the paths it carries and keeps the rest: it is idempotent, two updates compose into one, and an empty update is the identity |
| Records.SetOrderLaws | routes/orderRoutes.js:210 | `order.set(body)` is idempotent, an empty body changes nothing, and a valid stored status stays valid iff the body's status is allowed |
| UserModel.IndexOf | models/user.js:14 | finds the first occurrence of a character, or reports that there is none |
| UserModel.IsEmailMatchesPattern | models/user.js:14 | the email check accepts exactly the strings of the form local `@` domain `.` tld, each part non-empty and free of whitespace and `@` |
| UserModel.IsEmailOneAt | models/user.js:14 | an accepted email holds exactly one `@` |
| UserModel.ValidationErrorsEmpty | models/user.js:7-23 | a document passes validation iff it has an email matching the pattern and no role or an enum role |
| UserModel.ClashesBreaksUnique | models/user.js:5-10 | the unique indexes accept a write exactly when it keeps usernames and emails unique |
| UserModel.UserDoc.PreSave | models/user.js:33-46 | an unmodified password is left alone; a modified one is replaced by its digest; a hashing failure aborts the save |
| UserModel.Create | models/user.js:4-46 | `User.create` runs validation, then the hook, then the unique indexes; on success it inserts the hashed document, on any failure it stores nothing; it keeps keys unique |
| Paging.Window | routes/itemRoutes.js:94-96 | `skip(k).limit(n)` returns the documents at positions k to k+n-1 that exist |
| Paging.CeilDiv | routes/itemRoutes.js:104 | `Math.ceil(count / perPage)` is the fewest pages of `perPage` that hold `count` |
| Paging.Paginate | routes/itemRoutes.js:87-105 | currentPage echoes the page; totalCount is the number of matches; totalPages is the ceiling; the results are exactly the matches from `(page-1)*limit` on, `limit` of them or all that remain; a page is non-empty iff it is at most totalPages, and full before the last page |
| Paging.IsPagePaginate | routes/itemRoutes.js:87-105 | the paging facts pin the page down: any page that satisfies them is the one `Paginate` builds |
| Paging.PageBounds | routes/itemRoutes.js:91 | the skip of a page lies within the matches iff the page is at most totalPages |
| Paging.PagesCoverAll | routes/itemRoutes.js:91-104 | walking pages 1 to totalPages returns every match once, in order |
| Paging.PagesFromSuffix | routes/itemRoutes.js:91-96 | the pages from `first` on are the matches from that page's skip on |
| Paging.Search | routes/itemRoutes.js:84 | the filter keeps the documents whose key matches the term and no others; together with SearchAppend and SearchCons this fixes the list in store order |
| Paging.SearchAppend | routes/itemRoutes.js:84 | filtering a concatenation filters each part in turn, so store order is kept |
| Paging.SearchCons | routes/itemRoutes.js:84 | a single document is kept exactly when its key matches the term |
| Paging.SearchWithoutTerm | routes/itemRoutes.js:84 | with no `q` the filter keeps every document |
| AuthMiddleware.Violations | middlewares/authMiddleware.js:13-18 | `validationResult` lists one error for each failed rule, with the rule's path and message and the value sent, and nothing else; it is empty iff every rule holds; with ViolationsAppend and ViolationsCons this fixes the list in rule order |
| AuthMiddleware.ViolationsAppend | middlewares/authMiddleware.js:5-18 | the errors of two rule chains run in a row are those of the first chain followed by those of the second |
| AuthMiddleware.ViolationsCons | middlewares/authMiddleware.js:5-18 | one rule adds its error, once, exactly when it fails |
| AuthMiddleware.Validate | middlewares/authMiddleware.js:12-20 | a chain passes iff every rule holds, else answers 400 with all the violations |
| AuthMiddleware.ValidateDataSpec | middlewares/authMiddleware.js:5-20 | login data passes iff the username is non-empty and the password has at least 8 characters; otherwise the 400 lists each broken rule with the value sent |
| AuthMiddleware.LoginViolations | middlewares/authMiddleware.js:5-18 | the login chain's errors are the username's, if it is empty, then the password's, if it is short, each with its message and the value sent |
| AuthMiddleware.ValidateSignupDataSpec | middlewares/authMiddleware.js:23-41 | signup data passes iff all six rules hold |
| AuthMiddleware.TokenOf | middlewares/authMiddleware.js:47 | the token is a non-empty word with no space |
| AuthMiddleware.TokenOfBearer | middlewares/authMiddleware.js:47 | the token is the second word of the header, whatever the first word is and whatever words follow |
| AuthMiddleware.TokenOfShape | middlewares/authMiddleware.js:47-51 | a token found is the second space-separated word of the header, non-empty; TokenOfBearer is the converse, so a token is found iff the header has a non-empty second word |
| AuthMiddleware.Authenticate | middlewares/authMiddleware.js:45-64 | with no token: 401 "Unauthorized"; with a token, a verified token gives its payload and a refused one gives 401 "Unauthorized " followed by the refusal's reason |
| AuthMiddleware.AuthenticateSigned | middlewares/authMiddleware.js:45-64 | a bearer header with a signed token authenticates as its payload for one hour, then gives 401 "Unauthorized jwt expired" |
| AuthMiddleware.IsAuth | middlewares/authMiddleware.js:45-64 | `isAuth` passes on iff authentication succeeds, and then sets `req.user` to the payload; otherwise it answers and leaves the request as it was |
| AuthMiddleware.HasRole | middlewares/authMiddleware.js:92-99 | `hasRole` passes on iff the caller's role is listed, else answers 403 "Forbidden" |
| AuthMiddleware.Admit | middlewares/authMiddleware.js:45-99 | `isAuth` then `hasRole` admits exactly an authenticated caller with a listed role; a failed authentication gives exactly `isAuth`'s 401 answer; an authenticated caller is refused only with 403 "Forbidden" |
| AuthMiddleware.UnlistedRoleNeverAdmitted | middlewares/authMiddleware.js:92-99 | a caller whose role is not listed always gets 401 or 403 |
| AuthMiddleware.IsAuthHasRole | middlewares/authMiddleware.js:45-99 | running the two gates in a row gives `Admit`'s answer; `req.user` is set to the payload whenever authentication succeeds, also when `hasRole` then refuses with 403, and is left as it was on a 401 |
| AuthMiddleware.IsOwner | middlewares/authMiddleware.js:67-89 | a lookup error gives 500; a missing item gives 404 before any ownership check; an item without an owner gives 500 "Server error " with the TypeError's message; an owner other than the caller gives 403; only the owner passes |
| AuthMiddleware.AdminIsNotOwner | middlewares/authMiddleware.js:81-83 | an Admin who does not own the item still gets 403 |
| ItemRoutes.List | routes/itemRoutes.js:78-110 | a store error gives 500; otherwise 200 with the page of stored items whose names match `q`: the paging facts of `Paginate` (exactly its window, by IsPagePaginate), non-empty iff the page is at most totalPages, and full before the last page |
| ItemRoutes.ListWithoutTerm | routes/itemRoutes.js:84-99 | with no `q` the total count is the number of stored items |
| ItemRoutes.Get | routes/itemRoutes.js:238-251 | with no authentication: 200 with the item, 404 "Item not found", or 500 |
| ItemRoutes.Create | routes/itemRoutes.js:173-182 | needs Admin or Owner; stores the body with `owner` forced to the caller under a fresh id and answers 201; a store error gives 400 and changes nothing; every item keeps an owner |
| ItemRoutes.Update | routes/itemRoutes.js:329-342 | behind `isAuth` and `isOwner`; sets the body's paths with `owner` forced to the caller and answers 203; a store error gives 400; no other item changes |
| ItemRoutes.UpdateKeepsCallerOwner | routes/itemRoutes.js:332 | after an update the caller owns the item, whatever owner the body named |
| ItemRoutes.Delete | routes/itemRoutes.js:382-395 | behind `isAuth` and `isOwner`; removes exactly that item and answers 204; a store error gives 500 and changes nothing |
| UserRoutes.PatchSkipsHookAndValidation | routes/userRoutes.js:61 | a password sent to PUT is stored as plaintext, so no login password matches it (see Left out for a plaintext that spells a digest); a role outside the enum is stored too |
| UserRoutes.List | routes/userRoutes.js:8-40 | Admin only; a store error gives 500; otherwise 200 with the page of users whose username matches `q` |
| UserRoutes.Get | routes/userRoutes.js:44-55 | Admin only; 200 with the user, 404 "User not found", or 500 |
| UserRoutes.Put | routes/userRoutes.js:59-70 | Admin only; applies the body as given and answers 200 with the updated user; a missing id gives 404; a store error or a unique-index clash gives 400 and changes nothing; keys stay unique |
| UserRoutes.Delete | routes/userRoutes.js:74-85 | Admin only; removes exactly that user and answers 204; a missing id gives 404; a store error gives 500 |
| OrderRoutes.Create | routes/orderRoutes.js:45-54 | Client only; stores the body with `client` forced to the caller and answers 201; a status outside the enum or a store error gives 400 and stores nothing |
| OrderRoutes.List | routes/orderRoutes.js:84-92 | Admin only; 200 with every stored order, or 500 |
| OrderRoutes.Get | routes/orderRoutes.js:136-149 | Admin only; 200 with the order, 404 "Order not found", or 500 |
| OrderRoutes.Put | routes/orderRoutes.js:199-217 | Admin only; a missing id gives 404 and nothing changes; otherwise the body's paths overwrite, the others are kept, and it answers 200; a bad status or a store error gives 400 and nothing changes |
| OrderRoutes.Patch | routes/orderRoutes.js:273-291 | Admin only; only `status` changes, to the body's status (cleared when absent); a bad status gives 400 and nothing changes |
| OrderRoutes.Delete | routes/orderRoutes.js:331-348 | Admin only; a missing id gives 404; otherwise it removes exactly that order and answers 204 |
| AuthRoutes.FindOne | routes/authRoutes.js:60 | `findOne({ username })` returns the first stored user with that username, or none iff no user has it |
| AuthRoutes.FindOneUnique | routes/authRoutes.js:60 | with unique usernames the lookup finds the one user that holds the username |
| AuthRoutes.Login | routes/authRoutes.js:53-89 | validation first; a lookup error or a missing stored password gives 400 "400 Not Found"; an unknown username gives 400 "user not found"; a wrong password gives 400 "invalid password"; otherwise 200 with a token for `{id, username, role}` |
| AuthRoutes.LoginAfterSignup | routes/authRoutes.js:60-81 | a user stored by signup logs in, with a token carrying its own id and role, exactly with the passwords that agree on their first 72 characters with the one it signed up with; any other gives 400 "invalid password" |
| AuthRoutes.LoginTokenAuthenticates | routes/authRoutes.js:74-81 | the token login returns authenticates as the user found, for one hour |
| AuthRoutes.CastBooleanTexts | models/user.js:29 | every text `isBoolean` accepts casts to the boolean it spells |
| AuthRoutes.SignupFieldsShape | routes/authRoutes.js:137-152 | once signup validation passes, the schema can refuse the new user only for its email |
| AuthRoutes.Signup | routes/authRoutes.js:137-163 | validation first; a lookup error gives 404; an existing username gives 400 "User with this username exists!!"; any create failure (validation, hook, duplicate email) gives 404 with its message; otherwise 201 with the stored user; failures store nothing |
| AuthRoutes.SignupEchoesBody | routes/authRoutes.js:152-155 | the created user echoes username, fullname, email, role and isActive, and its stored digest matches exactly the candidates that agree with the password sent on its first 72 characters |

## Left out

- Paging.Paginate and ItemRoutes.List/UserRoutes.List require `page >= 1` and `limit >= 1`. `parseInt` can give `NaN`, zero or a negative number, and then JavaScript float arithmetic makes `skip` negative or `totalPages` `Infinity`/`NaN`. That is not modelled.
- Paging.Search: `q` is matched as a literal, case-insensitive substring. It is not a MongoDB regular expression.
- Case folding is ASCII only.
- Prices, quantities and totals are unbounded integers rather than JavaScript numbers.
- Crypto.Key: bcrypt cuts the UTF-8 encoding of a password at 72 bytes. The model cuts at 72 characters, which is the same for ASCII passwords; a password with multi-byte characters is cut earlier in the source.
- UserRoutes.PatchSkipsHookAndValidation: digests have no text form in the model, so a plaintext is never a digest. In the source, a PUT whose `password` is itself a bcrypt digest string is stored as it is, and `bcrypt.compare` then accepts that digest's input at login. The lemma's "no password matches" holds only for plaintexts that do not spell a digest.
- bcrypt and jsonwebtoken are symbolic. Digest strings, salt rounds, signature bytes and the JWT library's exact error texts are not modelled. The signature check is the `decode` parameter.
- The `iat` and `exp` fields that `jwt.verify` adds to `req.user` are not modelled. `req.user` holds the signed payload.
- validator.js `isEmail`, used by the signup chain, is the `isEmail` parameter.
- Mongoose casting errors for malformed ids and body paths are folded into the `failure` parameters. Document `_id` values are naturals handed out in order.
- `populate('client')` in the order reads is not modelled. Orders are returned with the client's identifier.
- ItemRoutes.Update and ItemRoutes.Delete do not model the 404 after `isOwner` has passed (routes/itemRoutes.js:334-335, 387-388). Only a deletion running concurrently between the two queries can reach it.
- Requests are modelled one at a time; async interleaving of requests is not.
- Express routing, CORS, the catch-all 404 and `app.listen` (app.js) are not part of this model. Neither are `config/db.js` and `data/seedDB.js`.
- The order router is modelled as written, although app.js never mounts it.
- Signup: a present `isActive` text that Mongoose cannot cast would fail `create`. The model reads it as absent instead. The signup validation already refuses every such text.
- User PUT bodies carry only the schema's scalar paths. `orders` and `joinedAt` sent in a PUT are not modelled.
- Request bodies are maps from path to text (`Fields`). A JSON number, boolean, array, object or `null` in a body is not modelled. For example, a numeric `password` passes `isLength` once stringified, but `bcrypt.compare` then throws and login answers 400 "400 Not Found" (routes/authRoutes.js:67, 83-85). The model reads the text and can answer 200.
- AuthRoutes.Login and AuthRoutes.Signup: a JSON object as `username`, such as `{"$gt": ""}`, passes `notEmpty`, because it stringifies to "[object Object]". `User.findOne({ username })` (routes/authRoutes.js:60, 143) then runs it as a MongoDB operator filter, which matches the first stored user. Login then answers 200 when the password matches that user, with the object as the token's `username`. Signup answers 400 "User with this username exists!!" as soon as any user is stored. `AuthRoutes.FindOne` compares usernames as text, so the model's decision tables do not cover such bodies.
- Records.UpdateItem: an item update sets the paths the body carries, each to a value. A `null` value, and update operators such as `$unset` or `$inc` in the body (routes/itemRoutes.js:332), cannot be expressed and are not modelled.
- Http.FieldError: the `type` ("field") and `location` ("body") keys of each error entry are the same in every entry and are not stored.
- AuthMiddleware.Passes: for `MinLength`, validator.js `isLength` does not count the variation selectors U+FE0E and U+FE0F. The model counts every character, so a password padded with them can pass in the model and fail in the source.
- UserModel.Message: a duplicate-key failure is reported with the shortened text "E11000 duplicate key error". The MongoDB driver's message also names the collection, the index and the clashing key.
- AuthMiddleware.NoOwnerMessage: the 500 for an item without an owner carries the TypeError text for an `undefined` owner. An owner stored as `null` gives the same 500 with "of null" in place of "of undefined"; the model does not tell the two apart.
