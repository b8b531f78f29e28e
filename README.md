# Personal blog backend: slugs, cookie sessions, profile updates, user creation

A Dafny model of the decision logic of a small FastAPI/SQLAlchemy blog
backend, with proofs of what that logic promises. Four pieces are modelled:

- **Slugs** (`slug.dfy`, module `Slug`): `generate_slug` turns a title into a
  URL slug by dropping non-ASCII characters, lower-casing, replacing each run
  of characters outside `[a-z0-9]` with one `-`, and stripping `-` from both
  ends. Each stage is a function. The lemmas prove the shape of every slug, that
  its letters and digits are the input's, lower-cased and in order, that
  slugging is idempotent, and the worked example in the source.
- **Cookie sessions** (`auth_core.dfy`, module `AuthCore`): JSON Web Tokens
  (RFC 7519) signed with HS256 (section 3.2 of RFC 7518). They carry "sub",
  "type" and "exp" claims and travel in three cookies: access, refresh and
  CSRF. The signer is an abstract `Codec`. `Sound(codec)` states the one
  assumption the lemmas make: a signed token is non-empty and decodes to the
  claims that were signed. Expiry, type checks, the 401/403 mapping, the
  mandatory and optional subject lookups and the double-submit CSRF check are
  pure functions. The response is a class whose `cookies` map is updated in
  place by `set_auth_cookies`, `clear_auth_cookies` and `refresh_access_token`.
- **Profile update** (`profile.dfy`, module `Profile`): `update_profile` is a
  method of a `UserTable` object holding `rows: map<int, User>`. As in the
  source, it edits a pending copy of the row through early-return checks and
  commits only at the end. It is proved equal to the specification function
  `ProfileUpdate`. Lemmas about that function state the error cases, their
  order, the field rules and the avatar rules. They also prove that a request
  keeps the table's invariant: ids under their keys, unique usernames and
  emails.
- **User creation** (`create_user.dfy`, module `CreateUser`): the payload
  validator of `create_user`. It checks for the mandatory keys, then for a
  credential key, then filters the payload to an allow-list.

`http.dfy` (module `Http`) holds the shared `Option`, `Result` and `Failure`
types. `Failure` is either an HTTP error with status and detail, or `Crash`:
an uncaught exception, which the framework answers with a bare 500.

Inputs that the source takes from its environment are parameters here:

- the current time `now`, in whole seconds;
- the random CSRF token;
- the token codec;
- the image decoder;
- the authenticated user id.

The docstring of `csrf_protect` (api/v1/auth_core.py:132-137) says the token
may come in the `X-CSRF-Token` header or in a form field. The code reads only
the header, and the model follows the code.

## Model

| member | source | states |
|---|---|---|
| `Slug.AsciiOnly` | utils.py:6 | the result has only characters below code point 128 and is no longer than the input; an all-ASCII input passes through unchanged, and an input with a non-ASCII character gives a shorter result: such characters are dropped, not replaced |
| `Slug.AsciiOnlyAppend` | utils.py:6 | the encode works character by character: it maps `a + b` to the results for `a` and `b`, concatenated |
| `Slug.Lower` | utils.py:7 | same length as the input; each character is the input's lower-cased |
| `Slug.SkipRun` | utils.py:8 | what remains after a leading run is dropped is empty or starts with one of `[a-z0-9]` |
| `Slug.SkipRunDropsSeparators` | utils.py:8 | the result is a suffix of the input, and every character dropped lies outside `[a-z0-9]` |
| `Slug.Collapse` | utils.py:8 | the `re.sub` result has only `[a-z0-9-]`, never `--`, is empty iff the input is, and starts with `-` iff the input starts outside `[a-z0-9]` |
| `Slug.CollapseWord` | utils.py:8 | a run of `[a-z0-9]` passes through unchanged |
| `Slug.CollapseSeparator` | utils.py:8 | a whole run of other characters, of any length, becomes exactly one `-` |
| `Slug.StripLeading` | utils.py:9 | removes exactly the leading hyphens: the result is a suffix not starting with `-`, and everything dropped is `-` |
| `Slug.StripTrailing` | utils.py:9 | removes exactly the trailing hyphens: the result is a prefix not ending with `-`, and everything dropped is `-` |
| `Slug.Strip` | utils.py:9 | the result neither starts nor ends with `-` |
| `Slug.StripRemovesOnlyHyphens` | utils.py:9 | the result is a contiguous piece of the input and every character outside it is `-`; with the previous row this fixes the result |
| `Slug.GenerateSlug` | utils.py:5-10 | every slug is in `[a-z0-9-]`, has no `--`, and neither starts nor ends with `-` |
| `Slug.SlugKeepsAlnums` | utils.py:6-8 | the slug's letters and digits are exactly the input's ASCII letters and digits, lower-cased, in their original order |
| `Slug.SlugEmptyIff` | utils.py:8-9 | the slug is empty iff the input has no ASCII letter or digit |
| `Slug.SlugOfSlug` | utils.py:5-10 | a well-formed slug is its own slug |
| `Slug.SlugIdempotent` | utils.py:5-10 | `generate_slug(generate_slug(s)) == generate_slug(s)` |
| `Slug.SlugExample` | utils.py:13-16 | `"My First Blog Post! hey"` gives `"my-first-blog-post-hey"` |
| `AuthCore.JwtDecode` | api/v1/auth_core.py:53 | decoding succeeds iff the signature and format check out and "exp" is not before `now` |
| `AuthCore.CreateToken` | api/v1/auth_core.py:32-35 | under a sound codec the token is non-empty and decodes to the given claims with "exp" = issue time + lifetime |
| `AuthCore.CreateAccessToken` | api/v1/auth_core.py:38-42 | under a sound codec the token decodes to `sub` = the user id, type "access", "exp" = issue time + 900 |
| `AuthCore.CreateRefreshToken` | api/v1/auth_core.py:45-48 | under a sound codec the token decodes to `sub` = the user id, type "refresh", "exp" = issue time + 604800 |
| `AuthCore.VerifyToken` | api/v1/auth_core.py:51-58 | succeeds iff the token decodes unexpired with the expected "type", and then gives its claims; a decode failure is 401 "Invalid or expired token"; a decoded token of another type is 401 "Invalid token type" |
| `AuthCore.AccessTokenRoundTrip` | api/v1/auth_core.py:38-56 | until 15 minutes after issue, an access token verifies as "access" with `sub` = the user id |
| `AuthCore.AccessTokenExpires` | api/v1/auth_core.py:17-58 | after 15 minutes an access token fails with 401 "Invalid or expired token" |
| `AuthCore.RefreshTokenRoundTrip` | api/v1/auth_core.py:45-56 | until 7 days after issue, a refresh token verifies as "refresh" with `sub` = the user id |
| `AuthCore.RefreshTokenExpires` | api/v1/auth_core.py:18-58 | after 7 days a refresh token fails with 401 "Invalid or expired token" |
| `AuthCore.TokenTypesExclusive` | api/v1/auth_core.py:51-56 | no token verifies both as "access" and as "refresh" |
| `AuthCore.IssuedTokensKeepTheirType` | api/v1/auth_core.py:38-56 | an issued refresh token never passes as an access token, nor the reverse; while the token is unexpired the refusal is 401 "Invalid token type" |
| `AuthCore.Lookup` | api/v1/auth_core.py:111 | `dict.get`: present exactly when the key is, with its value |
| `AuthCore.CurrentUser` | api/v1/auth_core.py:110-116 | a missing or empty access cookie is 401 "Not authenticated"; a verification error passes through unchanged; a verified token without `sub` raises (500); success gives the token's `sub` |
| `AuthCore.OptionalUser` | api/v1/auth_core.py:119-128 | never fails: it is the subject `CurrentUser` would return, or None wherever `CurrentUser` fails |
| `AuthCore.CsrfProtect` | api/v1/auth_core.py:131-145 | passes iff the cookie and the header are both present, non-empty, ASCII and equal; a missing or empty side is 403 "CSRF token missing"; a non-ASCII value makes `compare_digest` raise (500); two different ASCII values are 403 "Invalid CSRF token" |
| `AuthCore.RefreshSubject` | api/v1/auth_core.py:153-159 | a missing or empty refresh cookie is 401 "Missing refresh token"; a verification error passes through unchanged; a verified token without `sub` raises (500); it succeeds iff the cookie verifies as "refresh" with a `sub`, and gives that `sub` |
| `AuthCore.AccessCookie` | api/v1/auth_core.py:71-78 | the access cookie is HttpOnly, SameSite=lax, Max-Age 900 |
| `AuthCore.RefreshCookie` | api/v1/auth_core.py:80-87 | the refresh cookie is HttpOnly, SameSite=lax, Max-Age 604800 |
| `AuthCore.CsrfCookie` | api/v1/auth_core.py:90-96 | the CSRF cookie is readable by scripts, SameSite=lax, without Max-Age |
| `AuthCore.SetAuthCookies` | api/v1/auth_core.py:66-96 | exactly the access, refresh and CSRF cookies are set, with the new tokens; every other cookie is unchanged |
| `AuthCore.ClearAuthCookies` | api/v1/auth_core.py:99-102 | exactly the three session cookies are replaced by removals (Max-Age 0) |
| `AuthCore.RefreshAccessToken` | api/v1/auth_core.py:153-170 | a failure leaves the response unchanged; success resets only the access cookie, for the refresh token's subject |
| `AuthCore.SessionAuthenticates` | api/v1/auth_core.py:66-128 | for 15 minutes after login the session cookies authenticate the user, through both the mandatory and the optional lookup |
| `AuthCore.SessionAccessExpires` | api/v1/auth_core.py:66-128 | after 15 minutes they authenticate no one |
| `AuthCore.SessionRefreshes` | api/v1/auth_core.py:66-159 | for 7 days after login the refresh cookie yields the user |
| `AuthCore.SessionCsrf` | api/v1/auth_core.py:66-145 | a request passes the CSRF check iff its header echoes the session's CSRF cookie; any other non-empty ASCII header is 403 "Invalid CSRF token" |
| `Profile.NatToString` | api/v1/updateuser.py:110 | the decimal form of an id: digits only, denoting the number, with no leading zero |
| `Profile.IntToString` | api/v1/updateuser.py:110 | Python's `str(int)`: a `-` exactly for a negative number, then digits with no leading zero that denote its absolute value |
| `Profile.NatToStringInjective` | api/v1/updateuser.py:110 | distinct numbers have distinct decimal forms |
| `Profile.IntToStringInjective` | api/v1/updateuser.py:110 | distinct integers, negative ones included, have distinct `str()` forms |
| `Profile.AvatarUrlShape` | api/v1/updateuser.py:110-116 | the avatar URL starts with `/static/images/avatars/avatar-` and ends with `-su.webp` |
| `Profile.AvatarUrlsDistinct` | api/v1/updateuser.py:110-116 | different user ids give different avatar URLs |
| `Profile.TruncateBio` | api/v1/updateuser.py:87-88 | the stored bio is the first `min(len, 160)` characters of the submitted one |
| `Profile.ApplyForm` | api/v1/updateuser.py:71-118 | the id and password hash are kept and the update time is `now`; a submitted bio is stored as `TruncateBio` of it, its first 160 characters; the username, email and avatar URL change only to a non-empty submitted value or the id's avatar URL |
| `Profile.ProfileUpdate` | api/v1/updateuser.py:37-123 | success keeps the row's id; every refusal is a 400, 401 or 404 |
| `Profile.UnauthorizedAndNotFound` | api/v1/updateuser.py:44-58 | no subject gives 401 "Unauthorized"; an unknown id gives 404 "User not found" |
| `Profile.UsernameRules` | api/v1/updateuser.py:60-71 | on any table, a username held by another row gives 400 "Username already taken" whatever the email; resubmitting one's own username is no conflict and keeps it |
| `Profile.EmailRules` | api/v1/updateuser.py:73-82 | on any table, once the username passes, an email held by another row gives 400 "Email already in use"; one's own email is no conflict and keeps it |
| `Profile.AvatarRules` | api/v1/updateuser.py:90-116 | an upload that does not decode, or decodes outside {JPEG, PNG, WEBP}, gives 400; an accepted one stores the URL fixed by the user id |
| `Profile.SuccessCommitsForm` | api/v1/updateuser.py:60-120 | on success each field takes its submitted value or keeps its old one, as the source's rules say, and the update time becomes `now` |
| `Profile.SuccessIff` | api/v1/updateuser.py:60-123 | a request for a known user succeeds iff no username, email or avatar check refuses it |
| `Profile.UpdateKeepsTableValid` | api/v1/updateuser.py:60-120 | every request keeps ids under their keys and usernames and emails unique |
| `Profile.UserTable.UsernameHeldByOther` | api/v1/updateuser.py:61-65 | for a new non-empty username the query is true iff `UsernameConflict` holds; under the table invariant a username held by another row is never one's own |
| `Profile.UserTable.EmailHeldByOther` | api/v1/updateuser.py:74-76 | the same for emails: for a new non-empty email it is true iff `EmailConflict` holds, and under the invariant an email held by another row is never one's own |
| `Profile.UserTable.Commit` | api/v1/updateuser.py:120 | the pending row replaces the stored one, nothing else changes, and a caller that checked uniqueness gets a valid table back |
| `Profile.UserTable.UpdateProfile` | api/v1/updateuser.py:37-123 | the method's answer and new table are those `ProfileUpdate` gives; every refusal leaves the table as it was; the table invariant is kept |
| `CreateUser.FilterAllowed` | api/v1/api.py:45-55 | the filtered payload is the input restricted to {username, email, password_hash, full_name, bio} |
| `CreateUser.CreateUser` | api/v1/api.py:21-59 | a missing username or full_name is refused first; then a payload without an `email` or `password_hash` key; otherwise the body is echoed and the row fields are the filtered payload |
| `CreateUser.FilterIgnoresOtherKeys` | api/v1/api.py:45-55 | keys outside the allow-list have no effect, and filtering twice equals filtering once |
| `CreateUser.NoCredentialExample` | api/v1/api.py:37-43 | `{username: "ab", full_name: "A"}` is refused with "Either email or password must be provided" |
| `CreateUser.CredentialPresenceSuffices` | api/v1/api.py:37-55 | only key presence counts: an empty `email` passes, and an unknown key is filtered out |

## Left out

- Unicode NFKD normalisation is modelled only as "drop every non-ASCII
  character". In the source, a character such as "é" decomposes into "e" plus a
  combining mark and keeps its "e"; in the model it is dropped.
- HS256 signing and verification are an abstract codec, and HMAC is not
  modelled. The lemmas assume `Sound(codec)`. The library's leeway and its
  checks of claims these tokens never carry ("iat", "nbf", "aud") are not
  modelled.
- `secrets.token_urlsafe(32)` is a parameter. `secrets.compare_digest` is
  modelled as its `TypeError` on non-ASCII strings followed by plain equality.
  Its constant-time behaviour is not modelled.
- Wall-clock time is an integer parameter `now`, in whole seconds.
- Cookies are modelled as a map from name to attributes. A second `Set-Cookie`
  for the same name replaces the first, as the browser would apply it. Path,
  domain and Expires attributes are not modelled.
- The framework's request parsing, dependency injection and exception
  handlers are left out. So is the endpoints' catch-all `except Exception`,
  which logs and answers 500. `Crash` stands for an uncaught exception wherever
  the source raises one.
- Image handling is an abstract decoder that returns a format or a failure.
  Also left out:
  - failures of `img.verify()` other than `UnidentifiedImageError`;
  - the RGBA conversion and the WEBP re-encoding at quality 85, and their
    failures;
  - `os.makedirs` and the avatar file write, which is not transactional with
    the commit.
- The ORM session is modelled as a pending copy plus `Commit`:
  - autoflush and rollback are not modelled;
  - `db.refresh` is not modelled;
  - the storage-level unique constraints are replaced by the explicit
    pre-check queries and the table invariant.
- `update_profile` receives the subject from the optional lookup as a string
  and compares it with integer ids. The model takes the id as an integer.
  Form text fields are strings; an upload under a text field's name is not
  modelled.
- `create_user`: a JSON body that is not an object (an error, answered 500)
  and the construction of the unsaved `User` row are not modelled.
  `User(**filtered_payload)` is represented by the filtered map.
- Outside this model: `web/home.py` (markdown rendering and templates), `main.py`
  (application wiring, database creation, server launch), `api/v1/auth.py`
  (an empty router), `schemas/item.py` (declarations only) and the browser
  scripts under `static/javascript/`.
