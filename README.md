# User accounts: registration, login and the user directory

This project models the user-account controller of an Express/Mongoose
expenses backend (`controllers/userController.js`): registering a user,
logging in, reading the current user and listing the other users. The
Mongoose `User` collection becomes an in-memory store (`Directory.UserStore`)
holding the records in insertion order; bcrypt becomes `Credentials.Hash` and
`Credentials.Verify`; `jsonwebtoken` becomes a `Tokens.Token` holding its
claims, its mint time and its `exp` claim (section 4.1.4 of RFC 7519).

Files, in dependency order:

- `wrappers.dfy`: `Option`, for absent request fields and failed lookups.
- `text.dfy`: lodash's `isEmpty` on a request field, ASCII `toLowerCase`,
  and `String.prototype.includes` with its reference definition (some
  position starts a copy of the search text).
- `credentials.dfy`: the digest type. A stored password is a `Digest`, a
  type distinct from `string`, so a plaintext string cannot be stored where a
  digest is expected; this separation holds at the type level only, since the
  stand-in digest is computed from the password by an invertible map. The
  general properties use one fact about hashing: a password verifies against
  its own digest. `Scenario` also uses a second, true of the stand-in only: a
  different password of another length does not verify against a digest,
  which `Credentials.Verify`'s contract states.
- `tokens.dfy`: `getAccessToken`, minting a token whose claims are the user's
  id and email and which expires thirty days (2,592,000 seconds) after it
  was minted.
- `directory.dfy`: the user record, `User.findOne({ email })` (first match in
  insertion order, exact comparison), the email-uniqueness invariant and the
  store class whose `Create` appends a record under a fresh id.
- `user_controller.dfy`: the four handlers. `RegisterResult` and
  `LoginResult` state what `registerUser` and `loginUser` do as functions of
  the store contents; the methods `RegisterUser` and `LoginUser` follow the
  handlers step by step (status set at the throw site, then overwritten by
  the catch block) and are proved equal to those functions. Lemmas relate the
  operations: login after registration succeeds, a second registration of an
  email fails, registration keeps emails unique, login succeeds exactly when
  a record with that email verifies the password, and the listing's search
  ignores case. `Scenario` replays a short sequence of requests (register,
  duplicate register, wrong password, correct password, unknown email)
  against the methods' contracts.

The error convention: every failure the handlers detect themselves sets 400,
404 or 401 and throws; the surrounding catch block sets 500 and throws a new
error with the same message. `Reply.Fail(setStatus, finalStatus, message)`
keeps both statuses, and every explicit failure ends with `finalStatus` 500.

In three places the handlers behave as follows:

- Required fields are checked with `lodash.isEmpty`, which does not trim: a
  name, email or password made of blanks is accepted.
- A duplicate email is answered with status 400 (then 500), not with a
  separate conflict status.
- Emails are compared exactly, with no case folding, both at registration
  and at login.

## Model

| member | source | states |
|---|---|---|
| Text.ToLowerCase | controllers/userController.js:135 | the lower-cased name or search text has the same length, maps each character through the ASCII lower-case mapping, and contains no upper-case letter |
| Text.IsEmpty | controllers/userController.js:15-19 | a request field is empty exactly when it is absent or the zero-length string; a string of blanks is not empty |
| Text.ToLowerCaseIdempotent | controllers/userController.js:135 | lower-casing twice is lower-casing once |
| Text.Includes | controllers/userController.js:135 | `includes` holds exactly when some position of the name starts a copy of the search text |
| Credentials.Hash | controllers/userController.js:30 | the digest of a password verifies against that password, and it carries the salt drawn for it, so digests of one password under two salts differ |
| Credentials.Verify | controllers/userController.js:81 | a password verifies against a digest exactly when deriving it under the digest's own salt gives the stored tag; a password whose length differs from the tag's never verifies |
| Tokens.Issue | controllers/userController.js:58-61 | a minted token carries the given claims, is accepted from its mint time up to thirty days later, and is refused from thirty days on |
| Tokens.TokenLifetime | controllers/userController.js:58-61 | for every presentation time, a token decodes to exactly its claims before mint time plus thirty days and to nothing afterwards |
| Directory.FindByEmail | controllers/userController.js:24-25 | the lookup finds nothing exactly when no record has the email; otherwise it returns a stored record with exactly that email, the first such in insertion order |
| Directory.FindByEmailUnique | controllers/userController.js:75-76 | when emails are unique, the lookup returns the one record that has the email |
| Directory.UserStore.Create | controllers/userController.js:32-36 | `User.create` appends exactly one record with the given fields under an id no earlier record has, and keeps the store's id invariant |
| UserController.Rethrow | controllers/userController.js:52-55 | the catch block turns a failure with the status set at the throw site into one that keeps that status and the message and ends with status 500 |
| UserController.RegisterResult | controllers/userController.js:12-56 | an empty field fails with "All Fields are required"; otherwise an email already stored fails with "This email is already registered"; both set 400, end with 500 and leave the store unchanged; registration succeeds exactly when the fields are present and the email is new, and then appends one record with the input name and email, the fresh id and the password's digest, and returns the name, the email and exactly the token minted now for the new id and email, which expires thirty days after minting |
| UserController.RegisterUser | controllers/userController.js:12-56 | the step-by-step handler (checks, lookup, hash, create, mint, catch) leaves the store and returns the reply that RegisterResult gives for the old store and its next id, keeps the store invariant, gives the new record an id not in use, and advances the next id by one on success only |
| UserController.LoginResult | controllers/userController.js:67-101 | checks in order: an empty field fails with 400, an unknown email with 404, a password that does not verify against the digest of the record found with 401, each ending with 500; when the record found verifies the password the reply is success with the token minted now for that record's id and email; a success always names a stored record with that email whose digest verifies the password |
| UserController.LoginUser | controllers/userController.js:67-101 | the step-by-step handler, which modifies nothing, returns the reply LoginResult gives for the store's records |
| UserController.GetCurrentUser | controllers/userController.js:106-120 | the view holds exactly the user's id, name and email; the password digest is not part of it |
| UserController.Listed | controllers/userController.js:131-135 | a record is listed only when it is not the caller's; with an absent or empty search text every other record is listed; otherwise exactly the other records whose lower-cased name has an occurrence of the lower-cased text |
| UserController.GetAllUsers | controllers/userController.js:125-142 | the listing is an order-preserving subsequence of all records, never holds the caller's id, and holds each record as often as the full list when it is listed (not the caller, and an absent or empty search text or a lower-cased name containing the lower-cased text) and never otherwise |
| UserController.RegisterThenLogin | controllers/userController.js:30-36 | after a successful registration with an email and password, logging in with the same email and password succeeds with a token for the new record |
| UserController.RegisterTwiceFails | controllers/userController.js:24-28 | after a successful registration, registering the same email again with any non-empty name and password, under any next id, fails with "This email is already registered" |
| UserController.RegisterKeepsEmailsUnique | controllers/userController.js:24-36 | registration, successful or not, keeps the emails in the store pairwise distinct |
| UserController.LoginSucceedsIff | controllers/userController.js:75-89 | with unique emails and both fields present, login succeeds exactly when a stored record with the email has a digest the password verifies against, and the token names that record |
| UserController.SearchIgnoresCase | controllers/userController.js:133-135 | two search texts that lower-case alike give the same listing |
| UserController.SearchLowerCasedText | controllers/userController.js:133-135 | searching for a text and for its lower-cased form gives the same listing |
| UserController.ListingWithoutSearch | controllers/userController.js:130-134 | with an absent or empty search text the listing is the one without search text, and holds exactly the records that are not the caller's |
| UserController.AliExample | controllers/userController.js:135 | the search text "ali" matches the names "Ali" and "Khalid" and not "Bob" |

## Left out

- Mongoose persistence (`findOne`, `create`, `find`), its timeouts and its failures: the store is an in-memory sequence and its operations always succeed, so no request fails with an unclassified internal error.
- The race between the email check and the insert of two concurrent registrations: the model is sequential.
- bcrypt internals (salt generation, cost factor 10, the 72-byte input limit, constant-time comparison): the salt is a parameter and `Credentials.Hash` is a stand-in. Unlike bcrypt it is injective and invertible (the tag is the password's code points shifted by the salt), so it is neither one-way nor subject to the 72-byte truncation; the lemmas about the controller use only that a password verifies against its own digest, and `Scenario`'s wrong-password step also uses that a password of another length does not verify.
- JWT encoding, signing, the secret read from the process environment, and token verification (done by middleware that is not part of this model): a token is its claims, mint time and expiry; `Tokens.Decode` states only the expiry rule.
- The clock: the mint time `now` is a parameter, in seconds.
- Request values other than an absent field or a string (numbers, arrays, objects in the JSON body or a repeated query parameter): fields are `Option<string>`.
- Full Unicode lower-casing: `Text.ToLowerCase` maps ASCII letters only.
- How `req.user` is resolved for getCurrentUser and getAllUsers: done by authentication middleware that is not part of this model; the caller is a given record.
- The Express `asyncHandler` wrapper, `res.json` serialisation, routing and the downstream error-handling middleware.
- `models/projectModel.js`: a schema with no logic of its own.
- GetAllUsers returns whole records, as the handler passes the fetched documents to `res.json`; whether the digest field is hidden on output is decided by the user schema, which is not part of this model.
