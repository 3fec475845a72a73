# Email/password and Google authentication, modelled in Dafny

This project models the authentication core of an Express/Mongoose API template: the four
handlers of `api/controllers/auth.js` (register, login, verify code, Google login), the helpers
of `api/helpers/generic.js` they rely on (issuing an email-verification challenge, the bearer
token gate `authenticateToken`, the page arithmetic of `paginatedList`), and the two Mongoose
schemas of `api/models/index.js` (users with a unique email; verification challenges with a
15-minute TTL).

Each handler is a pure function from the store and the request to an `Outcome`: the new store,
the reply (status and JSON body) and the mails handed to the mail transport. The store
(`Models.Store`) holds the users and the challenges as sequences in insertion order, so that
`findOne` on a non-unique field returns the first match, and carries the instant the schema
module was loaded. Everything the code gets from outside is a parameter:

- bcrypt is a `Generic.Hasher` (a `hash(password, salt)` and a `compare`), whose one promise is
  that a password matches any hash made from it;
- `jwt.sign` / `jwt.verify` are a `Generic.JwtKeys`, whose promise is that a token this server
  signed decodes to the user document it was signed from;
- `uuidv4()`, the bcrypt salt, `Math.random()` and the Mailtrap outcome are the per-request
  `Auth.Effects`;
- Google's `verifyIdToken` is the request's `Option<Payload>` (`None` when it throws);
- the TTL monitor is an explicit step `Models.Reap(store, now)`.

Modules follow the source: `Wrappers` (Option/Result), `JsRuntime` (the ECMAScript built-ins the
code depends on: `parseInt`, white space, line terminators, integer printing), `Patterns` (the two
regular expressions of the register handler), `Models`, `Generic`, `Pagination`, `Auth`, and
`Scenarios` (properties spanning several requests, and the store invariant over any sequence of
requests).

The model keeps the code's behaviour as written, including the parts that look unintended:

- the password pattern `^(?=.*[A-Za-z])(?=.*d).{6,}$` is built from a string literal, so it asks
  for a letter `d`, not a digit: "abc123" is refused, "Passw0rd" and "dddddd" are accepted;
- the email pattern's `.` before the top-level domain is unescaped, so "a@bcom" is accepted;
- register failures all answer 500, not a 4xx status;
- a new challenge never replaces an older one, and `verifyCode` compares the submitted code
  with the user's oldest challenge, so the code mailed by a later login is refused when it differs
  from the first;
- the token returned by `verifyCode` is signed from the user document read before the update,
  so its claims still say the email is unverified;
- a new Google subject whose email the issuer did not verify is created and mailed a code, and
  then the handler reads `user.uuid` on `null`; the catch answers 401, and the next Google login
  with that subject gets a token for the still unverified account;
- a Google login whose email is already held by a password account fails the unique index and
  answers 401;
- password login to an account created by Google has no stored hash; `bcrypt.compare` rejects and
  the catch answers 500 "Server Error";
- the `createdAt` default is `Date.now()` evaluated once at load, so every challenge carries the
  load time and the TTL monitor removes all of them 15 minutes after start-up;
- the schema declares neither `name` nor `expiresAt`, so Mongoose's strict mode drops both and no
  response ever carries a name;
- `authenticateToken` uses the raw `Authorization` header as the token. The call `next()` sits
  inside its `try`, so if that call itself throws synchronously the catch answers 403. Express's
  router runs each later handler in its own `try` and passes the error on with `next(err)`, so a
  later handler's error does not reach this catch.

## Model

| member | source | states |
|---|---|---|
| `Patterns.EmailRegexTestCorrect` | api/controllers/auth.js:20-22 | the email test accepts a string exactly when it splits as local part, `@`, domain, any one non-line-terminator character, and two or more ASCII letters |
| `Patterns.DotlessDomainAccepted` | api/controllers/auth.js:21 | "a@bcom", whose domain has no dot, is in the language of the email pattern |
| `Patterns.EmailPatternShape` | api/controllers/auth.js:21 | every accepted address has at least five characters and contains `@` |
| `Patterns.PasswordRegexTestCorrect` | api/controllers/auth.js:19 | the password test accepts exactly the strings with no line terminator, length at least 6 and a letter `d`, which is the language of both look-aheads and `.{6,}` |
| `Patterns.PasswordExamples` | api/controllers/auth.js:19 | "abc123" is refused; "Passw0rd" and the digit-free "dddddd" are accepted |
| `JsRuntime.TrimStart` | api/controllers/auth.js:124 | `parseInt` skips exactly the leading white space: what is dropped is white space and what is left starts with a non-space |
| `JsRuntime.ParseInt` | api/controllers/auth.js:124 | empty text reads as `NaN`; text starting with a digit 1-9 always reads as a non-negative number |
| `JsRuntime.ParseIntSkipsWhiteSpace` | api/controllers/auth.js:124 | any white space in front of the text leaves the result of `parseInt` unchanged |
| `JsRuntime.ParseIntOfBlank` | api/controllers/auth.js:124 | text made only of white space reads as `NaN` |
| `JsRuntime.ParseIntNonNumericStart` | api/controllers/auth.js:124 | text whose first character after the white space is neither a digit nor a sign reads as `NaN` |
| `JsRuntime.ParseIntNegativeNeedsMinus` | api/controllers/auth.js:124 | a negative result needs a `-` as the first character after the white space |
| `JsRuntime.ParseIntReadsPrintedInt` | api/controllers/auth.js:124 | `parseInt` reads back any printed integer, negative ones included, when the text after it is empty or starts with neither a digit nor `x`/`X` (so `"0x1"` is not covered: it reads as 1) |
| `JsRuntime.ParseIntReadsItsPrint` | api/controllers/auth.js:124 | `parseInt` of a printed integer gives that integer back |
| `Models.FindFirst` | api/controllers/auth.js:118 | a lookup returns the first position whose element matches, or none when no element matches |
| `Models.FindUserByEmail` | api/controllers/auth.js:73 | the account found has the email asked for; none is found exactly when no account has it |
| `Models.FindUserByGoogleId` | api/controllers/auth.js:160 | the oldest account with that Google subject, or none exactly when no account has it |
| `Models.FindUserByUuid` | api/controllers/auth.js:125 | the oldest account with that uuid, or none exactly when no account has it |
| `Models.FindChallenge` | api/controllers/auth.js:118 | the user's oldest challenge, or none exactly when the user has no challenge |
| `Models.CreateUser` | api/models/index.js:11-14 | a create succeeds exactly when no account holds the email, whatever uuid and Google subject others hold; it appends the account and keeps the store invariant |
| `Models.MarkVerified` | api/controllers/auth.js:127 | only the chosen account changes, and only its `emailVerified`, which becomes true |
| `Models.DeleteChallenge` | api/controllers/auth.js:128 | exactly one copy of the chosen challenge leaves the collection, every other challenge keeps its relative order, and users are untouched |
| `Models.DeleteKeepsOrder` | api/controllers/auth.js:128 | what is left is the challenges before the deleted one followed by those after it |
| `Models.Live` | api/models/index.js:25-29 | a live challenge keeps every copy it had and an expired one loses every copy; nothing is added |
| `Models.LiveDistributes` | api/models/index.js:25-29 | the live part of a concatenation is the live part of each piece, in order, which with the one-element case fixes the order of what survives |
| `Models.NoneExpiredKeepsAll` | api/models/index.js:27 | when nothing has expired every challenge survives, in order |
| `Models.Reap` | api/models/index.js:25-29 | a monitor pass removes every copy of each challenge older than 15 minutes, keeps every copy of the others in their order, never touches users, and keeps the store invariant |
| `Models.ReapAfterLoadWindowEmpties` | api/models/index.js:27 | because `createdAt` is the load time, a pass at least 15 minutes after load leaves no challenge |
| `Models.ReapWithinLoadWindowKeepsAll` | api/models/index.js:27 | a monitor pass less than 15 minutes after load changes nothing, since every challenge carries the load time |
| `Models.AllExpiredLeavesNothing` | api/models/index.js:28 | when every challenge has expired the live set is empty |
| `Generic.VerificationCode` | api/helpers/generic.js:76 | the code always lies in [10000, 99999] |
| `Generic.SendEmailVerification` | api/helpers/generic.js:70-104 | on a delivered mail exactly one challenge is appended with the user's uuid, the mailed code and the load-time stamp, and the mail goes to the user's email; a failed send appends nothing |
| `Generic.IssuingNeverSupersedes` | api/helpers/generic.js:99-103 | every challenge present before an issue is still there, in the same place |
| `Generic.AuthenticateToken` | api/helpers/generic.js:30-44 | a missing or empty header gets 401 "Token missing" and `next` does not run; a header that fails verification gets 403; a verified header puts the claims on `req.user` and runs `next` exactly once |
| `Generic.SignedTokenPassesGate` | api/helpers/generic.js:37-40 | a token this server signed for a user passes the gate with that user as the claims |
| `Pagination.QueryNumber` | api/helpers/generic.js:48-49 | an absent, non-numeric or zero parameter gives the default, any other integer read (negative included) is kept, and the result is never zero |
| `Pagination.NonZeroParameterKept` | api/helpers/generic.js:48 | a parameter that prints a non-zero integer, followed by nothing or by text starting with neither a digit nor `x`/`X`, gives that integer |
| `Pagination.ZeroParameterFallsBack` | api/helpers/generic.js:49 | the parameter `"0"`, followed by nothing or by text starting with neither a digit nor `x`/`X`, gives the default (other spellings of zero, such as `"-0"`, are covered by `Pagination.QueryNumber`) |
| `Pagination.CeilDiv` | api/helpers/generic.js:64 | `totalPages` is the ceiling of `total / perPage`: for a positive size `(totalPages-1)*perPage < total <= totalPages*perPage`, and it is 0 exactly when `total` is 0 |
| `Pagination.SkipOf` | api/helpers/generic.js:54 | the skip is negative exactly when the page is below 1 with a positive size or above 1 with a negative size |
| `Pagination.Window` | api/helpers/generic.js:54-55 | skip-then-limit returns a contiguous run of the matching documents starting at the skip, as many as the limit allows; a negative skip is rejected |
| `Pagination.PageOf` | api/helpers/generic.js:51-66 | for page and size at least 1 the data is the documents from `(page-1)*perPage` up to the next `perPage`; `meta` echoes page, size and total with the ceiling page count |
| `Pagination.PaginatedList` | api/helpers/generic.js:47-68 | `meta.page` and `meta.perPage` are never zero, `total` is the number of matches, and with no parameters the first ten documents come back |
| `Pagination.PagesCoverItems` | api/helpers/generic.js:54-64 | pages 1 to `totalPages` together hold every matching document once, in order |
| `Auth.Register` | api/controllers/auth.js:15-66 | answers 200 exactly when both patterns accept, the email is free and the mail is delivered; then the one new account has the hashed password, no `googleId`, no `emailVerified`, and one challenge with the mailed code, which is the code drawn for this request, is appended; every earlier failure leaves the store untouched; a failed mail leaves the account without a challenge |
| `Auth.RegisterReportsFirstFailure` | api/controllers/auth.js:24-46 | only the first failing check is reported, with status 500, in the order empty email, email pattern, empty password, password pattern, email taken |
| `Auth.Login` | api/controllers/auth.js:69-111 | unknown email and wrong password give 500 "Incorrect email or password" and change nothing; a token is returned exactly when the password matches and `emailVerified` is true; a matching unverified account gets no token and one new challenge |
| `Auth.LoginHidesAccountExistence` | api/controllers/auth.js:73-106 | an unknown email and a wrong password produce the identical answer and the same unchanged store |
| `Auth.VerifyCode` | api/controllers/auth.js:114-146 | no challenge gives 400 "Code has expired", a code whose `parseInt` differs gives 400 "Invalid code", both changing nothing; a match marks only that account verified, removes only the matched challenge while the others keep their order, and signs the record read before the update |
| `Auth.Confirm` | api/controllers/auth.js:124-138 | the matched account alone becomes verified, the matched challenge alone is removed with the others kept in order, the token is signed from the record read before the update, and the store invariant is kept |
| `Auth.GoogleAuth` | api/controllers/auth.js:149-198 | a known subject gets a token whatever its `emailVerified`, creating nothing; a new subject with a verified email is created and gets a token; an unverified one is created, mailed a code, and answered 401; a taken email answers 401 without change |
| `Scenarios.FreshUuidHasNoChallenge` | api/helpers/generic.js:99-101 | in a valid store a uuid that names no account has no challenge |
| `Scenarios.RegisteredAccountIsFound` | api/controllers/auth.js:118-125 | after a register with a fresh uuid, the uuid lookups find the new account and its new challenge |
| `Scenarios.SecondRegisterIsTaken` | api/controllers/auth.js:42-46 | registering an email a successful register just used answers "Email is already taken" |
| `Scenarios.MailedCodeVerifies` | api/controllers/auth.js:118-138 | the code mailed at register verifies the account, takes its challenge out so the challenges are exactly those before register, and signs the unverified record |
| `Scenarios.RegisterStore` | api/controllers/auth.js:48-61 | a successful register with a fresh uuid leaves exactly the new account and its one challenge, and the uuid lookups find both |
| `Scenarios.VerifiedStore` | api/controllers/auth.js:118-130 | a matching code marks the account found by uuid, removes the challenge found for it while the others keep their order, and signs the record read before the update |
| `Scenarios.VerifyAppended` | api/controllers/auth.js:118-138 | an account with a fresh uuid, appended with its one challenge, is verified by that challenge's code, which leaves exactly the earlier challenges |
| `Scenarios.LoginOfVerifiedAccount` | api/controllers/auth.js:73-96 | in a valid store, any verified account holding the hash of the password gets a session token for its record, and nothing changes |
| `Scenarios.RegisterVerifyLogin` | api/controllers/auth.js:15-111 | register, a wrong code (refused, no change), the mailed code (token whose claims say unverified), then login with the same password returns a token that decodes to the verified record |
| `Scenarios.ResentCodeIsRefused` | api/controllers/auth.js:97-124 | a login before verification mails a second code and appends its challenge, yet `verifyCode` compares with the first challenge, so that second code is refused whenever it differs from the first |
| `Scenarios.LoginOfUnverifiedAccount` | api/controllers/auth.js:73-99 | in a valid store, any unverified account holding the hash of the password gets no token, is mailed the code drawn for the request, and gains one challenge after its older ones |
| `Scenarios.UnverifiedGoogleAccountGetsTokenLater` | api/controllers/auth.js:160-184 | the first Google login of an unverified subject answers 401 but creates the account; the next one returns a token with `emailVerified` false |
| `Scenarios.GoogleLoginCreatesAtMostOnce` | api/controllers/auth.js:160-182 | a second Google login with the same subject creates no account |
| `Scenarios.CodesExpireWithTheLoadWindow` | api/models/index.js:25-29 | after a monitor pass 15 minutes past load, every code is answered "Code has expired" |
| `Scenarios.Handle` | api/routes/index.js:12-18 | every route and the monitor keep the store invariant, never remove an account or change its uuid, email, password or subject, and never un-verify it |
| `Scenarios.Run` | api/models/index.js:5-30 | over any sequence of requests the store invariant holds and accounts are only added or verified |
| `Scenarios.NoTwoAccountsShareAnEmail` | api/models/index.js:11-14 | after any sequence of requests no two accounts share an email |

## Left out

- Express plumbing, Mongoose I/O and `console.error`: each handler is a function of the store and the request; the `error` object the catch blocks attach to their 500/401 bodies is not modelled, only the message.
- Missing or non-string request fields: every body field is a string. In the source an absent `email` or `password` makes `.length` throw and the catch answer 500; a filter with an `undefined` value is interpreted by Mongoose; neither is modelled.
- bcrypt's internals, its cost factor 12, its 72-byte input limit and a failing `genSalt`/`hash`: the hasher is a pair of functions with one soundness promise.
- JWT internals (the `iat` claim, the signature algorithm) and the checks `verifyIdToken` performs (signature, audience, expiry): both are oracles.
- The Mailtrap transport: a send is either delivered or fails; template and sender fields are not modelled.
- `Math.random` and floating point: `Generic.VerificationCode` uses exact real arithmetic on a draw in [0, 1); `Pagination.CeilDiv` computes the exact ceiling rather than `Math.ceil` of a floating division; `parseInt` results beyond 2^53 are exact rather than rounded.
- Concurrency: requests are handled one at a time, so the race between the duplicate-email check and `create`, and between concurrent Google logins, is not modelled; the unique email index is kept as a store invariant.
- The TTL monitor's 60-second period: expiry is the explicit `Models.Reap` step.
- MongoDB natural order is taken to be insertion order, which decides which of several matching documents `findOne` returns.
- String lengths and regular-expression steps count one character per code unit; surrogate pairs are not modelled.
- `paginatedList`'s `find(query).sort(sortBy).lean()` and `countDocuments`: the matching documents are given, already sorted; array-valued query parameters are not modelled.
- The `expiresAt` value computed at api/helpers/generic.js:95-97 is written to a field the schema does not declare, so it is dropped and not modelled.
- One process lifetime: the store invariant asks every challenge's `createdAt` to equal the load time of the running process. After a restart the database would still hold challenges stamped at an earlier load, and `Models.ReapWithinLoadWindowKeepsAll` and `Models.ReapAfterLoadWindowEmpties` rely on this invariant.
- Missing Google claims: `Auth.Payload` always carries `email` and `email_verified`. In the source an absent `email_verified` leaves the account's `emailVerified` unset, while the model stores `Some(false)`; an absent `email` is not modelled.
