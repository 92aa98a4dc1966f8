# opus_dev core, modelled in Dafny

opus_dev is a Next.js application for managing business clients, orders,
invoices and payment reminders. This project models its request handlers
and the client-side logic around them:

- session handling: the `auth_token` cookie, JWT verification, the route
  guard, and the login, logout, register, refresh, identity and
  password-reset endpoints, both the App-router and the Pages-router ones;
- the validators of `lib/validation.ts` and the yup validation middleware;
- the order, invoice, client and reminder endpoints, with their ordered
  checks, uniqueness rules, totals and replies;
- the daily reminder job;
- three client-side pieces: the client list's filter and category names,
  the client form's submit step, tag toggle and field patterns, and the
  invoice page's line-item editing.

Every handler becomes a Dafny function or method of its inputs: the
request, a store value (`Store.Db`, whose `online` flag says whether
Prisma calls succeed), the JWT secret, and the time `now` in
milliseconds. A handler returns its reply together with the store after
the call. Thrown exceptions become explicit error values. Where the
framework turns an error into a 500 reply, the model does the same
(`Http.Crash`).

Shared modules:

- `Wrappers`: Option and Result.
- `Js`: JSON values with their falsy/truthy rules and property access,
  `parseInt`, `Number`, `split`, `trim` and `includes`.
- `Jwt`: jsonwebtoken, with a symbolic signature.
- `Http`: requests, replies, cookies and the browser's cookie jar.
- `Store`: the Prisma tables, as sequences with lookups by key.
- `Calendar`: the `Date` constructor's carrying of days and months.
- `Seqs`: `filter` and order-preserving subsequences.

Three modules model stateful objects:

- `ClientAuth.Browser`: the page's location, local storage and fetch log.
- `ClientsPage.Modal`: the selected client and whether the modal is open.
- `InvoiceCreatePage.Page`: the page's array of line-item objects.

The reminder job's send loop, the invoice item scan, the cookie copying
helper and the error-map fold are methods with loops. Each is proved
against a function that specifies it.

## Model

| member | source | states |
|---|---|---|
| LibAuth.DecodeUri | lib/auth.ts:29 | `decodeURIComponent`: a string without `%` decodes to itself; a malformed escape or UTF-8 sequence is an error |
| LibAuth.DecodeWithoutEscapes | lib/auth.ts:29 | a piece without `%` is unchanged by decoding |
| LibAuth.RawEntries | lib/auth.ts:29 | the header is split on `'; '`, then each entry on every `=` |
| LibAuth.DecodePieces | lib/auth.ts:29 | decoding an entry succeeds iff every piece decodes, and yields each piece decoded, in order |
| LibAuth.DecodeEntries | lib/auth.ts:29 | decoding the header succeeds iff every entry decodes, entry by entry |
| LibAuth.LastNamed | lib/auth.ts:28-31 | the reference reading: the index of the last entry with a given name, or none when no entry has it |
| LibAuth.FromEntriesLastWins | lib/auth.ts:28-30 | `Object.fromEntries` has exactly the keys some entry carries, and each key's value comes from the last entry with that key |
| LibAuth.GetToken | lib/auth.ts:24-32 | the definition: no header gives undefined; otherwise the pieces are split on `'; '` and `=`, decoded, and the `auth_token` entry read; `GetTokenIsLastAuthEntry` states its meaning |
| LibAuth.GetTokenIsLastAuthEntry | lib/auth.ts:28-31 | `getToken` returns the value of the last entry named exactly `auth_token`, or undefined when there is none or that entry has no `=` |
| LibAuth.NoHeaderNoToken | lib/auth.ts:25-26 | an absent or empty Cookie header gives undefined |
| LibAuth.MalformedPieceThrows | lib/auth.ts:29 | one malformed escape in any piece of any entry makes `getToken` throw |
| LibAuth.SingleEntry | lib/auth.ts:28-31 | a single entry `name=value` yields the decoded value exactly when the decoded name is `auth_token` |
| LibAuth.OneEntryHeader | lib/auth.ts:29 | a header without `'; '` is one entry, whatever `;` it holds |
| LibAuth.RawEqualsTruncates | lib/auth.ts:29 | `auth_token=v=tail` yields `v`: a raw `=` cuts the value |
| LibAuth.SemicolonWithoutSpace | lib/auth.ts:29 | `a=1;auth_token=x` holds no `auth_token` |
| LibAuth.EscapedEqualsSurvives | lib/auth.ts:29 | `auth_token=a%3Db` yields `a=b`, because decoding runs after the split |
| LibAuth.EntryWithoutValue | lib/auth.ts:28-30 | an entry without `=` maps its name to undefined |
| LibAuth.VerifyToken | lib/auth.ts:6-22 | an unset secret rejects with the configuration error; otherwise it resolves exactly when jsonwebtoken verifies, with the decoded payload, and rejects with the verifier's error otherwise |
| LibAuth.UnsetSecretIgnoresVerifier | lib/auth.ts:8-12 | without a secret the outcome depends neither on the token nor on the verifier |
| ClientAuth.StripAsciiWhitespace | app/utils/auth.ts:4 | `atob` drops ASCII white space and keeps every other character |
| ClientAuth.DropPadding | app/utils/auth.ts:4 | at most two trailing `=` are dropped, and only `=` |
| ClientAuth.Atob | app/utils/auth.ts:4 | `atob` succeeds iff the text, without white space and padding, uses only the standard base64 alphabet and its length modulo 4 is not 1 |
| ClientAuth.Base64UrlRejected | app/utils/auth.ts:4 | a `-` or `_` anywhere makes `atob` throw |
| ClientAuth.AtobOfUndefined | app/utils/auth.ts:4 | `atob(undefined)` throws |
| ClientAuth.PayloadSegment | app/utils/auth.ts:4 | the segment after the first `.` |
| ClientAuth.IsTokenExpired | app/utils/auth.ts:2-9 | any failure to decode the payload reports the token expired; otherwise `exp` is coerced as `*` coerces it and compared with `now` |
| ClientAuth.MissingSegmentIsExpired | app/utils/auth.ts:3-8 | a token without a `.` is expired |
| ClientAuth.Base64UrlPayloadIsExpired | app/utils/auth.ts:3-8 | a base64url payload containing `-` or `_` is expired, whatever its claims say |
| ClientAuth.NullPayloadIsExpired | app/utils/auth.ts:4-8 | a payload that parses to null is expired |
| ClientAuth.ExpiryBoundary | app/utils/auth.ts:5 | with a numeric `exp` the token is expired iff `exp*1000 < now`; equality is not expired |
| ClientAuth.ArrayExpLikeNumber | app/utils/auth.ts:5 | an `exp` of `[e]` expires exactly when `e` would, because `[e] * 1000` converts the array to its element |
| ClientAuth.NoExpNeverExpires | app/utils/auth.ts:5 | a payload without `exp` is never expired (NaN compares false) |
| ClientAuth.RefreshSucceeded | app/utils/auth.ts:12-29 | true only for an ok answer with a body; a thrown fetch or a non-ok answer gives false |
| ClientAuth.RefreshNeedsTruthySuccess | app/utils/auth.ts:19-28 | true exactly for an ok answer whose body has a truthy `success` |
| ClientAuth.CheckAndRefreshToken | app/utils/auth.ts:32-37 | a present, unexpired token gives true; otherwise the result is the refresh outcome |
| ClientAuth.FreshTokenSkipsRefresh | app/utils/auth.ts:33-36 | a fresh token gives true whatever a refresh would do |
| ClientAuth.MissingTokenAsksRefresh | app/utils/auth.ts:33-34 | a missing or empty token gives exactly the refresh outcome |
| ClientAuth.Browser.Send | app/utils/auth.ts:51-57 | one fetch is logged, and location and storage are unchanged |
| ClientAuth.Browser.CheckAuthStatus | app/utils/auth.ts:39-91 | the returned user and the fetches made are exactly those of `AuthFlow` for the stored token; None only after the location becomes `/login`; storage is untouched |
| ClientAuth.Browser.AskMe | app/utils/auth.ts:51-85 | the `/me` stage: the user and the fetches are exactly those of `MeFlow`; None only after the redirect to `/login` |
| ClientAuth.MeFlow | app/utils/auth.ts:51-85 | one to three fetches, the first a `/me` call, at most two of them to `/me`; a user only from an ok `/me` answer, the last fetch |
| ClientAuth.AuthFlow | app/utils/auth.ts:39-91 | one to four fetches, at most two to `/me`; a user only from the last fetch, an ok `/me` answer |
| ClientAuth.AuthFlowLog | app/utils/auth.ts:39-91 | appended to the page's log, the flow keeps the earlier fetches, adds one to four, at most two of them to `/me`, and a user is the body of the last one |
| ClientAuth.FreshTokenOkMe | app/utils/auth.ts:44-85 | a present, unexpired token and an ok `/me` answer: that body is the user, after exactly one fetch and no refresh |
| ClientAuth.RetryAfter401 | app/utils/auth.ts:59-79 | a 401 from `/me`, a successful refresh and an ok retry: the retry's body is the user, after three fetches (four when the token was refreshed first) |
| ClientAuth.FailedRefreshSkipsMe | app/utils/auth.ts:44-48 | a missing or expired token whose refresh fails gives None after that one fetch; `/me` is never asked |
| ClientAuth.OtherMeFailuresRedirect | app/utils/auth.ts:59-89 | a thrown fetch, a non-ok answer other than 401 or an ok answer that is not JSON gives None with no retry |
| Jwt.Verify | lib/auth.ts:14-20 | jsonwebtoken's verify: malformed, wrong secret or expired tokens are rejected; a valid one yields its payload with `exp` |
| Jwt.Issue | app/api/auth/login/route.ts:14 | the signed token carries the claims plus `iat = floor(now/1000)` and `exp = iat + ttl` |
| Jwt.Sign | app/api/auth/login/route.ts:14 | signing without a configured secret throws |
| Jwt.SignThenVerify | app/api/auth/login/route.ts:14 | a signed token verifies under the same secret, to its claims, until it expires |
| Jwt.KeyIsolation | lib/auth.ts:14 | a token signed with one secret is rejected under any other |
| Jwt.ExpiredAfterTtl | app/api/auth/login/route.ts:14 | once the ttl has elapsed the token is refused |
| Http.Resolve | middleware/authMiddleware.ts:9 | `new URL('/login', request.url)` keeps the request's origin and takes the path |
| Http.Response.SetCookie | app/api/auth/login/route.ts:17-22 | the response's cookie list gains exactly that cookie |
| Http.ApplySetCookie | app/api/auth/logout/route.ts:9-15 | an expired cookie (expiry not after now, or max-age not positive) is removed from the jar; any other is stored with its value; every other cookie is kept as it was |
| Store.UserByEmail | app/api/auth/login/route.ts:9 | finds the user with that email, and is none iff no user has it |
| Store.UserById | app/api/auth/me/route.ts:17-20 | finds the user with that id, and is none iff no user has it |
| Store.OrderById | app/api/invoices/route.ts:96-99 | finds the order with that id, and is none iff there is none |
| Store.InvoiceById | app/api/reminders/route.ts:72-78 | finds the invoice with that id, and is none iff there is none |
| Store.OrderByNumber | app/api/orders/route.ts:60-62 | finds the order with that number, and is none iff there is none |
| Store.InvoiceByNumber | app/api/invoices/route.ts:122-124 | finds the invoice with that number, and is none iff there is none |
| Store.NextId | pages/api/clients/index.ts:23-32 | a new id is above every id in use |
| Js.ParseInt | app/api/auth/me/route.ts:13 | `parseInt` is a number iff a digit follows the leading white space and sign |
| Js.ParseIntOfString | app/api/auth/me/route.ts:13 | `parseInt(String(n))` gives `n` back |
| Js.ParseIntOfDigits | app/api/auth/me/route.ts:13 | digits followed by a non-digit read as the digits' value |
| Js.Split | lib/auth.ts:29 | `split` pieces joined by the separator give the string back, and no piece contains the separator |
| Js.ShortArrayString | app/api/auth/register/route.ts:15-16 | `String([])` is empty and `String([x])` is `x`'s string, `null` rendering as empty |
| Js.NumberOfString | app/api/auth/me/route.ts:13 | `Number(String(n))` gives `n` back |
| Js.ShortArrayNumber | app/utils/auth.ts:5 | `Number([])` and `Number([null])` are 0, and `Number([n])` is `n` |
| AuthMiddleware.Guard | middleware/authMiddleware.ts:4-21 | the guard passes the request on exactly when a cookie is present and verifies; otherwise it redirects to `/login` on the request's origin |
| AuthMiddleware.NoCookieRedirects | middleware/authMiddleware.ts:5-10 | no `auth_token` cookie redirects to `/login` |
| AuthMiddleware.RejectionRedirects | middleware/authMiddleware.ts:12-20 | any verification failure gives the same redirect as a missing cookie |
| AuthMiddleware.SignedTokenPasses | middleware/authMiddleware.ts:14-16 | a token signed with the configured secret passes until it expires |
| AuthMiddleware.OnlyAuthCookieMatters | middleware/authMiddleware.ts:4-21 | two requests with the same `auth_token` and origin get the same outcome; no refresh is tried |
| AuthMiddleware.SubPathsGuarded | middleware/authMiddleware.ts:23-25 | `/dashboard`, `/clients`, `/invoices` and every path below them are guarded |
| AuthMiddleware.OrdersUnguarded | middleware/authMiddleware.ts:24 | `/orders` is not guarded, nor is a path that only starts with a root's letters |
| AuthMe.UserIdOf | app/api/auth/me/route.ts:13 | a payload without `userId` parses to NaN; a non-negative numeric `userId` parses back to itself |
| AuthMe.Me | app/api/auth/me/route.ts:5-32 | the identity chain: statuses 200, 400, 401 or 404; a 200 carries the profile of the stored user whose id is the parsed claim; a 404, with the not-found message, exactly when the verified claim names an id no stored user has |
| AuthMe.NoCookieFirst | app/api/auth/me/route.ts:6-9 | no cookie gives 401 before anything else is consulted |
| AuthMe.UnknownUserIs404 | app/api/auth/me/route.ts:17-24 | a verified claim whose id resolves to no user gives 404 |
| AuthMe.NaNIdIsBadRequest | app/api/auth/me/route.ts:13-16 | a verified claim without leading digits gives 400, not 401 |
| AuthMe.ThrownErrorsAre401 | app/api/auth/me/route.ts:28-31 | a verification or store failure gives the same 401 |
| AuthMe.LoginSessionResolves | app/api/auth/me/route.ts:17-27 | a login session for a stored user gives 200 with `id`, `name`, `email` only |
| AuthRefresh.ClaimsOf | app/api/auth/refresh/route.ts:17-20 | the new claims are the payload's `userId` and `email`, and nothing else |
| AuthRefresh.Decide | app/api/auth/refresh/route.ts:4-34 | no refresh token gives 400; a verification or other failure gives 500; success gives the pair made from the payload's claims |
| AuthRefresh.Post | app/api/auth/refresh/route.ts:23-28 | success answers `{success: true}` and writes both new tokens into that same response |
| AuthRefresh.MissingTokenGeneratesNothing | app/api/auth/refresh/route.ts:7-11 | without a refresh token the reply is 400 whatever the other helpers would do |
| AuthRefresh.VerificationFailureIs500 | app/api/auth/refresh/route.ts:14-33 | a refresh token that fails verification gives 500, not 401 |
| AuthRefresh.PairFromUserIdAndEmail | app/api/auth/refresh/route.ts:17-20 | payloads with equal `userId` and `email` give the same pair |
| AuthRefresh.Replay | app/api/auth/refresh/route.ts:5-28 | a token that verified once verifies again, and each replay yields the pair for its own time |
| AuthLogin.SessionCookieOptions | app/api/auth/login/route.ts:17-22 | httpOnly, path `/`, maxAge 3600, and secure iff NODE_ENV is `production` |
| AuthLogin.Decide | app/api/auth/login/route.ts:7-14 | refused (the 401) exactly for a string email that is unknown or a password that fails the compare; signed only for the stored user of the posted email whose password compared, with a token over `{userId}` for an hour; a non-string email or a missing secret throws |
| AuthLogin.Post | app/api/auth/login/route.ts:6-25 | success answers `{message: 'ログイン成功'}` and sets exactly one cookie, `auth_token`, holding the issued token |
| AuthLogin.UnknownEmailLikeWrongPassword | app/api/auth/login/route.ts:9-12 | an unknown email and a wrong password give the identical 401, and the compare is not consulted for an unknown email |
| AuthLogin.WrongPasswordRefused | app/api/auth/login/route.ts:10-11 | a failed compare gives the 401 |
| AuthLogin.SessionToken | app/api/auth/login/route.ts:14 | the token carries only `userId` (plus `iat`), expires an hour after issue, and verifies to that payload |
| AuthLogin.MissingSecretCrashes | app/api/auth/login/route.ts:14 | a missing secret throws after the credentials passed |
| AuthLogin.MissingEmailCrashes | app/api/auth/login/route.ts:7-9 | a body without `email` makes the lookup throw |
| AuthLogout.ClearingOptions | app/api/auth/logout/route.ts:9-15 | httpOnly, path `/`, sameSite lax, expires at the epoch, secure iff production |
| AuthLogout.Post | app/api/auth/logout/route.ts:5-16 | always 200 `ログアウト成功`, writing only `auth_token` as `''` with those options |
| AuthLogout.LogoutClearsSessionOnly | app/api/auth/logout/route.ts:9-15 | after logout the jar has no session cookie, and every other cookie is as before |
| AuthLogout.LogoutIdempotent | app/api/auth/logout/route.ts:5-16 | logging out twice leaves the jar as logging out once |
| AuthRegister.LengthOf | app/api/auth/register/route.ts:20 | `password.length`: a string's UTF-16 length; an object's own `length` key through `Number`; undefined for a missing key and for null, booleans and numbers |
| AuthRegister.NewUser | app/api/auth/register/route.ts:29-37 | the created user has a fresh id, the given name and email, and the hash as password |
| AuthRegister.Register | app/api/auth/register/route.ts:6-51 | statuses 201, 400 or 500; a 201, or any change to the store, needs the four checks passed and appends exactly `NewUser(name, email, hash(password))`; a 201 answers that user's profile; a 400 changes nothing |
| AuthRegister.MissingFieldFirst | app/api/auth/register/route.ts:11-13 | a falsy field is 400 before the store is touched |
| AuthRegister.ShapeThenLength | app/api/auth/register/route.ts:15-22 | then the email pattern, then a length under 8 UTF-16 units, each a 400 |
| AuthRegister.DuplicateEmailRefused | app/api/auth/register/route.ts:24-27 | a registered email gives 400 and creates nothing |
| AuthRegister.Registered | app/api/auth/register/route.ts:29-46 | the stored password is the hash; the reply is 201 with `{id, name, email}` and a token verifying to `userId` and `email` for an hour |
| AuthRegister.MissingSecretKeepsUser | app/api/auth/register/route.ts:31-49 | without a secret the reply is 500 and the new user stays stored |
| AuthRegister.ArrayEmailReachesStore | app/api/auth/register/route.ts:15-27 | an e-mail posted as a one-element array passes the pattern, because `String([x])` is `x`, and the store then throws: 500, nothing created |
| AuthRegister.ObjectPasswordLength | app/api/auth/register/route.ts:20-22 | a password posted as `{"length": n}` with `n < 8` is refused as too short, before the store is consulted |
| EmailPattern.MatchShape | app/api/auth/register/route.ts:15 | an address matching `^[^\s@]+@[^\s@]+\.[^\s@]+$` has exactly one `@`, no white space, and a dot after the `@` |
| EmailPattern.BuildMatch | app/api/auth/register/route.ts:15 | `local@a.b` with plain non-empty parts matches |
| PasswordReset.ResetLink | app/api/auth/password-reset/route.ts:48 | the link is the fixed prefix followed by exactly the token |
| PasswordReset.Post | app/api/auth/password-reset/route.ts:8-63 | statuses 200, 400, 404 or 500; a 200 sends one mail after storing the record |
| PasswordReset.MissingEmailIs400 | app/api/auth/password-reset/route.ts:12-14 | a missing email gives 400 |
| PasswordReset.UnknownEmailIs404 | app/api/auth/password-reset/route.ts:16-19 | an unknown email gives 404 and stores nothing |
| PasswordReset.KnownUserGetsLink | app/api/auth/password-reset/route.ts:21-58 | the token is signed over `{userId, email}` for an hour; the record has the user's id, `createdAt = now`, `expires = now + 3600000`; it is stored before the mail and kept if the mail fails (500) |
| PasswordReset.MissingSecretStoresNothing | app/api/auth/password-reset/route.ts:21-25 | without a secret signing throws before anything is stored or sent |
| PagesResetPassword.Hex | pages/api/auth/reset-password.ts:24 | two lowercase hex digits per byte |
| PagesResetPassword.UnhexHex | pages/api/auth/reset-password.ts:24 | hex encoding is invertible, so distinct bytes give distinct tokens |
| PagesResetPassword.Handler | pages/api/auth/reset-password.ts:9-64 | malformed JSON is the body parser's 400; 405 iff a parsed body comes with another method; a 200, or any change to the store, appends exactly the record (hex token, user id, `expires = now + 3600000`) of the posted email's user; a 200 sends exactly the one mail with the link |
| PagesResetPassword.UnknownUserIs400 | pages/api/auth/reset-password.ts:13-21 | a missing email and an unknown user both give 400 |
| PagesResetPassword.KnownUserRecord | pages/api/auth/reset-password.ts:24-55 | the token is 64 lowercase hex digits encoding the 32 random bytes; the record has the user's id and `expires = now + 3600000`; it is stored before the mail |
| PagesResetPassword.OtherMethodsNotAllowed | pages/api/auth/reset-password.ts:60-63 | any other method gives 405 with `Allow: POST` |
| PagesLogin.Handler | pages/api/auth/login.ts:7-37 | malformed JSON is the body parser's 400; 405 iff a parsed body comes with another method; a 200 carries the stored record of the user whose email was posted and whose password compared |
| PagesLogin.OtherMethodsNotAllowed | pages/api/auth/login.ts:8-10 | a non-POST request gives 405 |
| PagesLogin.MissingFieldIs400 | pages/api/auth/login.ts:14-16 | an empty email or password gives 400 |
| PagesLogin.RefusalsDiffer | pages/api/auth/login.ts:19-27 | an unknown user and a wrong password give two different 400 messages |
| PagesLogin.SuccessReturnsRecord | pages/api/auth/login.ts:29-32 | success answers 200 with the whole record, hash included, and sets no cookie |
| PagesLogin.StoreFailureIs500 | pages/api/auth/login.ts:33-36 | a failing store gives 500 |
| Validation.IsNotEmpty | lib/validation.ts:5-7 | the definition: the trimmed text has a positive UTF-16 length; `NotEmptyIffVisible` states its meaning |
| Validation.IsLengthWithinRange | lib/validation.ts:10-13 | the definition: the trimmed UTF-16 length lies in `[min, max]`; `PaddingIgnored` states that padding never matters |
| Validation.IsValidEmail | lib/validation.ts:16-19 | the definition: the pattern matches and the text contains a dot; `ValidEmailOneAt` and `DotInLocalPart` state its consequences |
| Validation.IsNumber | lib/validation.ts:22-24 | the definition: some split of the text matches `-?\d*\.?\d+`; `IsNumberIffShape` states it without the split |
| Validation.IsValidDate | lib/validation.ts:27-34 | the definition: the `DDDD-DD-DD` shape, then the `Date` read-back; `IsValidDateIffReal` states its meaning |
| Validation.IsValidPhoneNumber | lib/validation.ts:37-40 | the definition: the text fits one alternative of the pattern; `PhoneNumberShape` states what every accepted number looks like |
| Validation.IsStrongPassword | lib/validation.ts:43-46 | the definition: the four look-aheads and at least 8 allowed characters; `StrongPasswordIff` states it without look-aheads |
| Validation.NotEmptyIffVisible | lib/validation.ts:5-7 | `isNotEmpty` holds iff some character is not white space |
| Validation.PaddingIgnored | lib/validation.ts:5-13 | surrounding white space never changes either length check |
| Validation.ValidEmailOneAt | lib/validation.ts:16-19 | an accepted address has exactly one `@` |
| Validation.DotInLocalPart | lib/validation.ts:16-19 | `a.b@c` is accepted, although the sign-up pattern refuses it |
| Validation.IsNumberIffShape | lib/validation.ts:22-24 | `isNumber` holds exactly for an optional `-`, digits with at most one `.`, ending in a digit |
| Validation.NumberExamples | lib/validation.ts:22-24 | `.5` is accepted; `5.`, `-` and the empty string are not |
| Validation.DateFields | lib/validation.ts:31 | under the shape, `split('-').map(Number)` yields the three numeric fields |
| Validation.ReadsBackIffReal | lib/validation.ts:32-33 | the `Date` read-back succeeds exactly for real dates with a year of at least 100 |
| Validation.IsValidDateIffReal | lib/validation.ts:27-34 | `isValidDate` holds iff the string is `DDDD-DD-DD` naming a real date (month 1-12, day within the month, February 29 only in leap years) |
| Validation.SmallYearsRefused | lib/validation.ts:32-33 | every year 0000 to 0099 is refused |
| Validation.LeapDay | lib/validation.ts:27-34 | February 29 is accepted exactly in leap years |
| Validation.MalformedDatesRefused | lib/validation.ts:28-29 | strings off the `DDDD-DD-DD` shape are refused |
| Validation.PatternShape | lib/validation.ts:38 | each alternative of the phone pattern has ten digit classes, at most two hyphens, `0` and `[1-9]` first and four digits last |
| Validation.PhoneNumberShape | lib/validation.ts:37-40 | every accepted number has exactly 10 digits, starts `0` then a non-zero digit, has at most two `-` and ends in 4 digits |
| Validation.MobileNumberRefused | lib/validation.ts:37-40 | an eleven-digit number like `090-1234-5678` is refused |
| Validation.PhoneExample | lib/validation.ts:38 | `03-1234-5678` is accepted |
| Validation.StrongPasswordIff | lib/validation.ts:43-46 | strong iff at least 8 characters from `[A-Za-z0-9@$!%*?&]`, including a lowercase letter, an uppercase letter, a digit and a special sign |
| Calendar.Settle | lib/validation.ts:32 | out-of-range days carry into neighbouring months, and a proper date is left as it is |
| Calendar.MakeDate | lib/validation.ts:32 | `new Date(y, m, d)` always reads back a proper date |
| Calendar.MakeDateOfProper | lib/validation.ts:32-33 | a proper date with a year from 100 on reads back as itself |
| Calendar.SmallYearMoves | lib/validation.ts:32-33 | a year below 100 never reads back as itself |
| ValidationMiddleware.ErrorsOf | middleware/validationMiddleware.ts:14-19 | the definition of the `reduce`: each inner error with a path writes its message under that path; `ErrorKeys` and `LastMessageWins` state its meaning |
| ValidationMiddleware.CollectErrors | middleware/validationMiddleware.ts:14-19 | the `reduce` loop computes the error map of its specification |
| ValidationMiddleware.Validate | middleware/validationMiddleware.ts:9-23 | the handler is called, with the same request, iff the schema accepts; a ValidationError gives 400 with the error map; any other failure gives 500 with the fixed message |
| ValidationMiddleware.ErrorKeys | middleware/validationMiddleware.ts:14-19 | the keys are exactly the paths of the inner errors that have one |
| ValidationMiddleware.LastMessageWins | middleware/validationMiddleware.ts:16 | a key's message is that of the last inner error with that path |
| ValidationMiddleware.PathlessIgnored | middleware/validationMiddleware.ts:15 | inner errors without a path, or with an empty one, leave no trace |
| RouteGuard.TokenOf | app/api/invoices/route.ts:46-49 | a missing or empty `auth_token` gives 401 before the body is read; a malformed cookie header throws |
| RouteGuard.NoCookieIs401 | app/api/orders/route.ts:36-39 | no Cookie header gives 401 |
| LineItems.Reduce | app/api/invoices/route.ts:130 | the sum is a number iff every item's product is |
| LineItems.Line | app/api/invoices/route.ts:133-138 | a stored row keeps the description and has `totalPrice = quantity * unitPrice` |
| LineItems.Lines | app/api/invoices/route.ts:133-138 | the rows are built item by item, all or nothing |
| LineItems.ReduceMatchesLines | app/api/invoices/route.ts:130-138 | the `reduce` and the `map` succeed on the same items, and the stored item totals sum to `totalAmount` |
| LineItems.TotalMatchesParsed | app/api/invoices/route.ts:130-138 | the same agreement for any posted `items` value |
| InvoicesApi.HandleGet | app/api/invoices/route.ts:8-42 | no usable cookie gives the guard's reply (401, or 500 when the header cannot be decoded); a JsonWebTokenError gives 401; a missing secret or a failing store gives 500; otherwise 200 with every invoice |
| InvoicesApi.ItemCheck | app/api/invoices/route.ts:78-86 | an item fails iff its description is falsy, its quantity is not a number of at least 1, or its unit price is not a number of at least 0, tested in that order |
| InvoicesApi.FirstItemProblem | app/api/invoices/route.ts:77-87 | no problem iff every item passes |
| InvoicesApi.FirstProblemAt | app/api/invoices/route.ts:77-87 | the first failing item decides, whatever follows it |
| InvoicesApi.CheckItems | app/api/invoices/route.ts:77-87 | the loop returns exactly the verdict of the first failing item |
| InvoicesApi.CheckedItemsPrice | app/api/invoices/route.ts:77-138 | items that pass the scan always have a total and stored rows |
| InvoicesApi.PartiesAsWritten | app/api/invoices/route.ts:105-112 | the definition: the direction rule with the user side read from the `id` claim, as written; `AsWrittenLosesUser` states the consequence |
| InvoicesApi.PartiesOf | app/api/invoices/route.ts:105-112 | the definition: the direction rule with the user side read from the `userId` claim, as intended; `ExactlyTwoParties` states the consequence |
| InvoicesApi.PartiesFor | app/api/invoices/route.ts:105-115 | `client_to_user` sets issuer client and recipient user; `user_to_client` sets issuer user and recipient client; anything else is refused |
| InvoicesApi.AssignParties | app/api/invoices/route.ts:90-115 | the four variables start null, and the branch sets them as the direction rule says |
| InvoicesApi.AsWrittenLosesUser | app/api/invoices/route.ts:105-112 | as written, a session token has no `id`, so only the client side is set |
| InvoicesApi.ExactlyTwoParties | app/api/invoices/route.ts:90-115 | read from `userId`, exactly two of the four ids are set: the client and the user |
| InvoicesApi.Create | app/api/invoices/route.ts:55-166 | the ordered checks, then a 201 appends exactly one invoice with number `INV-<now>`, the posted order id, parsed dates and status, priced items, and the parties of the direction with the user side read from the claim `key` |
| InvoicesApi.HandlePost | app/api/invoices/route.ts:45-171 | a missing cookie gives 401 before the body is read; every later failure, a refused token included, gives 500; a 201 stores the parties with the user side read from the payload's `id`, as written |
| InvoicesApi.RefusedTokenStatus | app/api/invoices/route.ts:167-170 | the same refused token is 401 on GET but 500 on POST |
| InvoicesApi.DueDateOrder | app/api/invoices/route.ts:70-74 | a due date not after the issue date gives 400 before the items are read |
| InvoicesApi.InvalidDateNotCaughtEarly | app/api/invoices/route.ts:70-74 | an unparsable date passes that check but never creates an invoice |
| InvoicesApi.ItemProblemDecides | app/api/invoices/route.ts:77-87 | the first offending item's message is the 400 reply |
| InvoicesApi.OrderBeforeDirection | app/api/invoices/route.ts:96-115 | a missing order is reported even when the direction is invalid too |
| InvoicesApi.UnknownDirection | app/api/invoices/route.ts:113-115 | an unknown direction gives 400 and stores nothing |
| InvoicesApi.DuplicateNumberRefused | app/api/invoices/route.ts:118-127 | a number already in use gives 400 and stores nothing |
| InvoicesApi.DefaultDirection | app/api/invoices/route.ts:61-109 | without `direction` the order's client issues and the recipient user is the claim the user side is read from |
| InvoicesApi.AsWrittenCreateLosesUser | app/api/invoices/route.ts:105-112 | as written, an invoice created for a login session token records only the client side: exactly one party id is set |
| InvoicesApi.CorrectedCreateKeepsUser | app/api/invoices/route.ts:90-115 | read from `userId`, an invoice created for a login session token records exactly two parties: the order's client and the token's user |
| OrdersApi.Refusal | app/api/orders/route.ts:101-107 | a JsonWebTokenError is 401; anything else is 500 |
| OrdersApi.HandleGet | app/api/orders/route.ts:7-32 | no usable cookie gives the guard's reply (401, or 500 when the header cannot be decoded); a failed verification gives the catch block's reply: 401 for a refused token, 500 otherwise; a failing store gives 500; otherwise 200 with every order |
| OrdersApi.Create | app/api/orders/route.ts:41-100 | a falsy field gives 400 first; a used number gives 400; a 201 appends exactly one order under the next id with the posted number, client id, parsed dates, status and items, and `totalAmount` the items' total |
| OrdersApi.HandlePost | app/api/orders/route.ts:35-108 | no cookie gives 401 before the body is read; a refused token gives 401; other failures give 500 |
| OrdersApi.RefusedTokenIs401 | app/api/orders/route.ts:101-107 | a refused token is 401 on both handlers and stores nothing |
| OrdersApi.MissingSecretIs500 | app/api/orders/route.ts:101-107 | without a secret both handlers answer 500 |
| OrdersApi.MissingFieldBeforeStore | app/api/orders/route.ts:55-57 | a missing field gives 400 even with a failing store |
| OrdersApi.DuplicateNumberRefused | app/api/orders/route.ts:60-65 | a used order number gives 400 and creates nothing |
| OrdersApi.CompleteOrderCreated | app/api/orders/route.ts:67-100 | a complete request for a known client with priced items and valid dates stores exactly the posted order, under the next id, with `totalAmount` equal to the sum of its item totals |
| ReminderJob.Due | lib/reminder.ts:12-28 | the selection is a subsequence of the invoices, and every selected one is due |
| ReminderJob.DueIff | lib/reminder.ts:17-23 | an invoice is selected iff it is in the table, unpaid, and due no later than three days after now |
| ReminderJob.OverdueSelected | lib/reminder.ts:20-22 | overdue unpaid invoices are selected too |
| ReminderJob.Recipient | lib/reminder.ts:31-36 | the recipient is the client's email iff the invoice names a client with a non-empty email |
| ReminderJob.Planned | lib/reminder.ts:30-59 | at most one mail per invoice |
| ReminderJob.PlannedAddressed | lib/reminder.ts:36-42 | every planned mail is some invoice's reminder, to its client's email, with its number in the subject |
| ReminderJob.SkippedSendsNothing | lib/reminder.ts:31-34 | an invoice without a usable recipient adds no mail |
| ReminderJob.AllAddressed | lib/reminder.ts:30-59 | when every invoice has a recipient, there is exactly one mail per invoice, in order |
| ReminderJob.SendReminderEmails | lib/reminder.ts:10-63 | a failing store sends nothing; otherwise the mails sent are the longest prefix of the plan whose sends resolve, their order kept, and nothing propagates |
| ReminderJob.PlannedPrefix | lib/reminder.ts:30-62 | the plan of a prefix of the invoices is a prefix of the plan |
| RemindersApi.HandleGet | app/api/reminders/route.ts:9-48 | no usable cookie gives the guard's reply; any later failure, a failing store included, gives the invalid-token 401; otherwise 200 with the due invoices |
| RemindersApi.Remind | app/api/reminders/route.ts:63-134 | the eligibility chain; a 200 sends exactly one mail, to the recipient's email, with the invoice number in the subject |
| RemindersApi.HandlePost | app/api/reminders/route.ts:51-142 | 401 for a missing cookie; every thrown error, a refused token included, is 500 |
| RemindersApi.RefusedTokenStatus | app/api/reminders/route.ts:135-141 | a refused token is 401 on GET but 500 on POST, and nothing is sent |
| RemindersApi.StoreFailureLooksLikeBadToken | app/api/reminders/route.ts:41-46 | a failing store on GET gives the invalid-token 401 |
| RemindersApi.Refusals | app/api/reminders/route.ts:80-102 | unknown invoice 404, paid invoice 400, no recipient 400, each sending nothing |
| RemindersApi.IdRequiredFirst | app/api/reminders/route.ts:65-70 | a missing or zero id gives 400 before the store is read |
| RemindersApi.NoWindowOnRequest | app/api/reminders/route.ts:72-104 | any unpaid invoice with a recipient is reminded on request, whether due or not |
| ClientsApi.NewClient | pages/api/clients/index.ts:23-32 | the new client has a fresh id and exactly the six posted fields |
| ClientsApi.Handler | pages/api/clients/index.ts:6-42 | malformed JSON is the body parser's 400; GET lists, POST validates and creates, anything else is 405 with `Allow: GET, POST`; only a 201 changes the table, by one appended client |
| ClientsApi.EmptyFieldRefused | pages/api/clients/index.ts:18-20 | any one empty field gives 400 and creates nothing |
| ClientsApi.CompleteFormCreates | pages/api/clients/index.ts:22-33 | a complete form creates that client and answers 201 with it |
| ClientsApi.ListAll | pages/api/clients/index.ts:7-10 | GET answers 200 with the whole table, or 500 when the store fails |
| ClientsPage.ApplyFilters | app/clients/page.tsx:88-92 | the result is an order-preserving subsequence of the clients; a client is in it iff it is loaded, its lowered company or contact name contains the lowered term, and the filter is `''`, `すべて` or its category name; a kept client occurs as often as in the input |
| ClientsPage.EverythingShown | app/clients/page.tsx:88-92 | an empty search with filter `''` or `すべて` shows every client |
| ClientsPage.UncategorisedHidden | app/clients/page.tsx:91 | a client without a category is hidden once a specific category is chosen |
| ClientsPage.Names | app/clients/page.tsx:70 | exactly the truthy category names the clients carry, repeats included |
| ClientsPage.FirstClient | app/clients/page.tsx:70 | the index of the first client carrying a name: that client carries it and no earlier one does |
| ClientsPage.NamesFirstOrder | app/clients/page.tsx:70 | a name that first appears earlier in the name list is first carried by an earlier client |
| ClientsPage.NamesOrder | app/clients/page.tsx:70 | the name list follows client order: of two names, one first appears earlier exactly when it is first carried by an earlier client |
| ClientsPage.Distinct | app/clients/page.tsx:70 | `new Set`: the same names, each once |
| ClientsPage.DistinctFirstAppearanceOrder | app/clients/page.tsx:70 | the distinct names come in order of first appearance |
| ClientsPage.CategoryNames | app/clients/page.tsx:70 | `すべて` first, then each truthy category name once, ordered by the first client carrying it |
| ClientsPage.Modal.constructor | app/clients/page.tsx:48-49 | closed, with no selection |
| ClientsPage.Modal.Open | app/clients/page.tsx:99-102 | sets the selection and opens the modal |
| ClientsPage.Modal.Close | app/clients/page.tsx:104-107 | clears the selection and closes the modal |
| Seqs.FilterMembers | app/clients/page.tsx:88 | an element is kept iff it is in the list and passes the test |
| Seqs.FilterSubsequence | app/clients/page.tsx:88 | filtering keeps the original order |
| Seqs.FilterCount | app/components/ClientForm.tsx:144 | filtering keeps every occurrence of a kept value and drops every occurrence of the others |
| ClientForm.Format | app/components/ClientForm.tsx:39-45 | the text fields are passed unchanged; the ids are coerced by `CoerceId` and `CoerceTags` |
| ClientForm.CoerceId | app/components/ClientForm.tsx:41 | a string is `parseInt`ed (NaN when it has no leading digits); any other value is unchanged |
| ClientForm.CoerceTags | app/components/ClientForm.tsx:42-44 | a non-array gives `[]`; an array keeps its length and each element is coerced like the category id |
| ClientForm.IdsFormatted | app/components/ClientForm.tsx:39-45 | a number or null category passes through; numeric tags are unchanged; `String(n)` parses back to `n` |
| ClientForm.OnSubmitForm | app/components/ClientForm.tsx:36-57 | nothing happens without a truthy token; otherwise `onSubmit` is called first with the formatted data, and `onClose` follows iff `onSubmit` resolves |
| ClientForm.Toggle | app/components/ClientForm.tsx:140-145 | after the change, the checkbox shows exactly the new checked state |
| ClientForm.CheckAppends | app/components/ClientForm.tsx:142-143 | checking appends the id at the end, adding a duplicate when it is already there |
| ClientForm.UncheckRemoves | app/components/ClientForm.tsx:144 | unchecking removes every occurrence and keeps every other id as often, in order |
| ClientForm.CheckThenUncheck | app/components/ClientForm.tsx:141-145 | unchecking right after checking equals unchecking at once |
| ClientForm.PhoneRuleShape | app/components/ClientForm.tsx:101 | an accepted number starts `0` and a digit, ends in a digit, has 4 to 13 digits and at most two hyphens |
| ClientForm.PhoneExamples | app/components/ClientForm.tsx:102 | `03-1234-5678` and `0312345678` are both accepted |
| ClientForm.FormLaxerThanValidator | app/components/ClientForm.tsx:101 | `0312` passes the form's rule but not `isValidPhoneNumber` |
| ClientForm.ContactRulesShape | app/components/ClientForm.tsx:84-104 | a form passing both rules has an email with exactly one `@` and no white space, and a phone number of at most 13 digits and two hyphens |
| InvoiceCreatePage.Apply | app/invoices/create/page.tsx:52 | only the named field changes |
| InvoiceCreatePage.RowsTotal | app/invoices/create/page.tsx:56-58 | the definition of the `reduce`: the sum of quantity times unit price over the rows; `TotalAppend`, `TotalSplit` and `TotalUpdate` state its meaning |
| InvoiceCreatePage.TotalAppend | app/invoices/create/page.tsx:56-58 | the total of a concatenation is the sum of the totals |
| InvoiceCreatePage.TotalSplit | app/invoices/create/page.tsx:56-58 | each row contributes quantity times unit price, wherever it stands |
| InvoiceCreatePage.TotalUpdate | app/invoices/create/page.tsx:56-58 | replacing one row moves the total by the change in its product |
| InvoiceCreatePage.TotalWithBlank | app/invoices/create/page.tsx:47 | an empty list totals 0, and a blank row adds nothing |
| InvoiceCreatePage.TotalExample | app/invoices/create/page.tsx:57 | rows (2, 300) and (1, 500) total 1100 |
| InvoiceCreatePage.Spread | app/invoices/create/page.tsx:47 | the spread copy is a fresh array holding the same element objects |
| InvoiceCreatePage.Page.CalculateTotal | app/invoices/create/page.tsx:56-58 | the total of the rows the items currently hold, read through the shared item objects |
| InvoiceCreatePage.Page.constructor | app/invoices/create/page.tsx:31 | the initial list is one blank item, totalling 0 |
| InvoiceCreatePage.Page.HandleAddItem | app/invoices/create/page.tsx:46-48 | a fresh array with the earlier items unchanged and one fresh blank item at the end; the total is unchanged |
| InvoiceCreatePage.Page.HandleItemChange | app/invoices/create/page.tsx:50-54 | a fresh array holding the same objects; only the row at `index` changes, in the named field; the previous array shows the change too; the total moves by the change in that row's product |

## Left out

- Cryptography is symbolic. A token is its claims, its secret and its expiry (`Jwt.Token`). The wire encoding is a `Jwt.Library` parameter. HMAC, bcrypt (`compare` and `hash` are parameters) and the bit-level base64 decoding in `atob` (a `bits` parameter) are not modelled.
- `crypto.randomBytes(32)` is modelled only by its output, a parameter of `PagesResetPassword.Handler`.
- `generateTokens`, `verifyRefreshToken`, `getRefreshToken` and `setTokens` are imported by the refresh route but do not exist in `lib/auth.ts`. They are an uninterpreted `AuthRefresh.Helpers` record.
- `JSON.parse` of a token payload is a codec parameter of `ClientAuth`. `new Date(s)` for posted invoice and order dates is a `parseDate` parameter.
- Mail delivery is not modelled. Whether a send resolves is a parameter: `mailOk`, or `accept` for the reminder job. The mails' `from` lines, text bodies and `toLocaleDateString` output are not modelled.
- The cron schedule in `lib/reminder.ts` is not modelled.
- Environment variables, `Date.now()`, the request's cookies and local storage are parameters.
- The 10% tax and every `toLocaleString` rendering in the invoice page are not modelled. The PDF export, the client fetch and the `required` attributes of the inputs are not modelled either.
- The invoice page's quantity and unit price are integers. `parseInt` on an empty number input, which gives NaN, is not modelled.
- Prisma's `include` and `orderBy` are not modelled. Lists are returned in store order, and related records are not embedded.
- Prisma's typing is modelled only where it decides the reply: a non-string `orderNumber`, an unknown `clientId`, an unparsable date or a NaN amount fails the order create with 500.
- The invoice `status` and item `description` columns are not type-checked by the model.
- `threeDaysLater` is `now` plus three whole days of milliseconds, so a daylight-saving shift is not modelled.
- `ToNumber` (`Js.ToNumber`): JSON numbers are integers, because the core's amounts, quantities, ids and times are whole numbers and floating point is out of scope. `Number` of a string is modelled for optionally signed decimal digit runs; a fraction (`"1.5"`, `".5"`), an exponent (`"1e3"`), a hex, octal or binary prefix (`"0x10"`) or `Infinity` converts to NaN in the model, where JS gives a number.
- `IsTokenExpired` (`ClientAuth.IsTokenExpired`): an `exp` claim that is a fraction, or a string in fraction, exponent or prefixed notation, is never expired in the model (NaN compares false), where `exp * 1000 < now` compares its value; this follows from `ToNumber`.
- `Reduce` (`LineItems.Reduce`): an item whose quantity or unit price is a fraction, or a string in such a notation, makes the model's total NaN, where JS multiplies and sums its value; this follows from `ToNumber`.
- `Line` (`LineItems.Line`): the same for a stored row's `quantity`, `unitPrice` and `totalPrice`; in particular a fractional unit price such as 99.5, which the invoice route accepts, cannot be posted in the model.
- `ClientsPage.ApplyFilters`: `toLowerCase` is a parameter `lower`, because Unicode case mapping is out of scope. `EverythingShown` assumes only that `lower("")` is empty.
- `ClientsPage.CategoryNames`: a category that is itself named `すべて` appears twice in the list, as it does in the source.
- `ClientForm`: react-hook-form's `required` rules and the rendering are not modelled. The two patterns are modelled as predicates on the field text.
- `ValidationMiddleware.Validate`: the yup schema is not modelled. Its verdict is an input. The handler's result is not awaited in the source, and the model does not track it.
- `ClientAuth.Browser.CheckAuthStatus`: `fetch` outcomes come from a parameter indexed by call number. Promise timing is not modelled.
- React state updates are modelled as immediate assignments, and re-rendering is not modelled.

## Findings

| source | as written | input that shows it | evidently intended | confidence | as-written member | corrected member |
|---|---|---|---|---|---|---|
| app/api/invoices/route.ts:108 | the user side of the invoice parties is `user.id`, read from the verified payload | any session token from the login route, whose payload is `{userId, iat, exp}` (app/api/auth/login/route.ts:14): `user.id` is undefined, so only one of the four party ids is set | the user side is the payload's `userId`, so exactly two ids are set | high, not executed | InvoicesApi.AsWrittenCreateLosesUser | InvoicesApi.CorrectedCreateKeepsUser |

`InvoicesApi.PartiesAsWritten` reads the `id` claim, as the source does, and `InvoicesApi.PartiesOf` reads the `userId` claim. `InvoicesApi.Create` takes the claim as a parameter: `InvoicesApi.HandlePost` passes `id`, as written, and `InvoicesApi.CorrectedCreateKeepsUser` proves the intended two-party property for `userId`.
