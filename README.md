# timelog: session tokens, authentication and the activity SQL builders

timelog is a small Go web application for logging time spent on activities. One configured
user logs in with a name and a bcrypt-hashed password. The server then sets an encrypted
session cookie. Every protected request passes an authentication middleware, which
decrypts that cookie and puts the user id into the request context. The activity pages
list, create, edit, delete and export activities stored in PostgreSQL.

This project models the core of that application and proves its properties.

- **The session token** (`Cookie`). A token is the base64url encoding, with padding, of a
  12-byte nonce followed by the AES-GCM sealing of `session:<uuid>`. Decryption fails
  closed:
  - bad base64, a short input, a failed authentication, a claim without `:`, a foreign
    label or an unparsable id all give `ErrInvalidValue`;
  - only a key of the wrong size gives a different error.

  The module proves the round trip, the cookie-substitution guard, the cookie's
  attributes and the token's length.
- **The authentication gate** (`Middleware`, `AuthService`, `AuthRouter`).
  - The middleware either redirects to `/login` or continues with the user id in the
    context.
  - The credential check gives one error for a wrong name and for a wrong password.
  - The login handler answers 401, 500, or 200 with `HX-Redirect: /` and the session
    cookie.
  - An end-to-end lemma proves that a successful login's cookie passes the middleware as
    the configured user.
- **The activity SQL builders** (`Sql`, `RepoStatements`, `ActivityRepo`,
  `ActivityService`). The WHERE and SET builders are methods that append text and
  arguments step by step.
  - They are proved against specification functions: placeholder `$k` is bound to the
    k-th argument, and `argIndex` stays one past the last argument.
  - The WHERE clause always opens with `user_id = $1`.
  - `LIMIT` and `OFFSET` bind the last two arguments.
  - The bulk-create loop, the row-scanning loop and the delete not-found rule are
    modelled as well.
  - The database is not modelled. Each operation states the statements it sends, and the
    database's replies are parameters.
- **The activity handlers** (`ActivityRouter`):
  - query-parameter parsing and clamping;
  - the page links;
  - `{id}` parsing, which stops a bad id before any service call;
  - the update form turned into a partial update;
  - the CSV export's records.

Foreign code is not defined here. AES-GCM sealing and opening, `uuid.Parse`, bcrypt and
`time.Parse`/`time.Format` are function-valued parameters. Where a proof needs a law of
one of them, the lemma takes that law as a `requires`:
- `Gcm.Correct`: opening what was sealed gives back the plaintext;
- `Gcm.AddsTag`: sealing adds a 16-byte tag;
- `Uuid.ParseInverts`: `Parse` reads back what `String` wrote.

The libraries with simple, fixed behaviour are defined concretely:
- `encoding/base64` (URL alphabet, padded, non-strict);
- `encoding/hex`;
- `strconv.Atoi`/`Itoa`;
- `uuid.UUID.String`;
- `strings.Cut` and `strings.Join`.

The snapshot of the repository is not self-consistent, and each file is modelled against
the fields it uses:
- `repo.go` and `router.go` own rows by a UUID `user_id` and filter by date;
- `service.go` owns rows by `user_name` and has no date filter.

`Activity` is therefore generic in its owner.

Two details of the session code matter for the model:
- The code reports every malformed or unauthentic token with the single `ErrInvalidValue`.
- `aes.NewCipher` checks the key's length on each encrypt and decrypt, and reports a key of
  the wrong size there as `aes.KeySizeError`, not at start-up.

## Model

| member | source | states |
|---|---|---|
| Common.Cut | internal/shared/cookie/cookie.go:112 | `strings.Cut` on `:` fails exactly when there is no `:`; otherwise the two parts joined by `:` give back the input, and the first part holds no `:` |
| Common.CutJoin | internal/shared/cookie/cookie.go:112 | cutting `a:b` gives back `a` and `b` whenever `a` holds no `:` |
| Base64Url.DecodeEncode | internal/shared/cookie/cookie.go:61-75 | decoding a token's base64url text gives back exactly the bytes that were encoded |
| Base64Url.Decode | internal/shared/cookie/cookie.go:72 | `DecodeString` skips CR and LF and accepts only whole 4-character quanta: an accepted input has a length that is a multiple of 4 and equals the length of the encoding of the bytes it gives |
| Base64Url.Encode | internal/shared/cookie/cookie.go:61 | the padded encoding is 4 characters per started 3 bytes and never contains CR or LF |
| Hex.Decode | internal/components/auth/service.go:64 | `hex.DecodeString` succeeds iff the input has even length and only hex digits, and the result is half as long |
| Hex.DecodeEncode | internal/components/auth/service.go:64 | decoding the hex encoding of any bytes gives back those bytes |
| Hex.EncodeInjective | internal/components/auth/service.go:64 | distinct keys have distinct hex encodings |
| Uuid.String | internal/shared/cookie/cookie.go:52 | the canonical form is 36 bytes with dashes at 8, 13, 18, 23 and contains no `:` |
| Uuid.StringInjective | internal/components/auth/service.go:53 | distinct UUIDs have distinct canonical strings, so the id comparison in `GetUserByID` identifies one user |
| Http.CookieValue | internal/shared/cookie/cookie.go:130 | `r.Cookie(name)` is absent iff no cookie has that name, and otherwise is the value of the first cookie with that name |
| Http.WithValue | internal/shared/middleware/auth.go:34 | `context.WithValue` maps the key to the value and keeps every other key's value |
| Cookie.Claim | internal/shared/cookie/cookie.go:52 | the sealed plaintext is the name, `:` and the 36-byte UUID string; for a name without `:` it cuts back into the name and the UUID string |
| Cookie.Encrypt | internal/shared/cookie/cookie.go:27-63 | succeeds iff the key is 16, 24 or 32 bytes and 12 random bytes are available; a bad key gives `KeySizeError`, too little randomness `EOF`/`ErrUnexpectedEOF`; on success the token decodes to the nonce followed by the sealed claim |
| Cookie.Decrypt | internal/shared/cookie/cookie.go:68-127 | bad base64 gives `ErrInvalidValue` before the key is used; a bad key gives `KeySizeError`, the only other error; a short or unauthentic token gives `ErrInvalidValue`; success holds iff the opened claim is the expected name, `:`, and a parsable id, and returns that id |
| Cookie.CutAccepted | internal/shared/cookie/cookie.go:112-120 | splitting at the first `:` and comparing the label accepts exactly the claims `Decrypt` accepts |
| Cookie.GetCookie | internal/shared/cookie/cookie.go:129-136 | `ErrNoCookie` iff the request has no `session` cookie; otherwise the result, success or error, is the decryption of the FIRST `session` cookie's value |
| Cookie.SessionCookie | internal/shared/cookie/cookie.go:144-151 | the cookie is named `session`, carries the token, and is HttpOnly, Secure, Path `/`, without expiry |
| Cookie.SetCookie | internal/shared/cookie/cookie.go:138-153 | on success exactly one cookie (the session cookie with the issued token) is added and nothing else changes; on failure nothing is written and `encrypt`'s error is returned |
| Cookie.CookieNameHasNoColon | internal/shared/cookie/cookie.go:17 | `cookieName` is the bytes of `session` and contains no `:` |
| Cookie.OpenedIssued | internal/shared/cookie/cookie.go:58-105 | splitting an issued token at the nonce size and opening it gives back the exact claim that was sealed |
| Cookie.RoundTrip | internal/shared/cookie/cookie.go:27-127 | a token issued for a name without `:` decrypts under the same key and name to the same user id |
| Cookie.SessionRoundTrip | internal/shared/cookie/cookie.go:135-139 | a token `SetCookie` issues is read back by `GetCookie`'s `decrypt` as the same user id |
| Cookie.NameWithColonNeverDecrypts | internal/shared/cookie/cookie.go:112-120 | a name containing `:` can never be read back: its tokens are always refused with `ErrInvalidValue` |
| Cookie.OtherNameRejected | internal/shared/cookie/cookie.go:117-120 | substitution guard: a token issued for one cookie name is refused under every other name, even with the right key |
| Cookie.ForeignLabelRejected | internal/shared/cookie/cookie.go:112-120 | any authenticated plaintext whose label before the first `:` differs from the expected name is refused |
| Cookie.SessionTokenLength | internal/shared/cookie/cookie.go:41-61 | a session token is 96 characters: 12 nonce bytes, 44 claim bytes and a 16-byte tag, base64url-encoded |
| Cookie.EncryptEncodes | internal/shared/cookie/cookie.go:58-62 | an issued token is the base64url encoding of the nonce followed by the sealed claim |
| Middleware.GetUserID | internal/shared/middleware/auth.go:17-20 | the stored UUID when one is stored under `userIDKey`, the zero UUID when none is or the value has another type |
| Middleware.AuthMiddleware | internal/shared/middleware/auth.go:25-38 | redirect (303 to `/login`, `next` not called) iff `GetCookie` fails; otherwise `next` gets the request whose context yields the decrypted id and keeps every other context value |
| Middleware.RefusalLeaksNothing | internal/shared/middleware/auth.go:29-32 | every refused request gets the same response, whatever the error was |
| Middleware.IssuedCookiePasses | internal/shared/middleware/auth.go:28-35 | a request carrying a cookie issued for a user under the same key passes, and `GetUserID` downstream returns that user |
| Middleware.NoCookieRedirects | internal/shared/middleware/auth.go:28-32 | a request without a `session` cookie is redirected to `/login` |
| Middleware.GetUserIDReadsStored | internal/shared/middleware/auth.go:17-20 | storing a UUID under `userIDKey` is what `GetUserID` reads back |
| Middleware.OtherKeysInvisible | internal/shared/middleware/auth.go:11-20 | values stored under any other key do not change what `GetUserID` reads |
| AuthService.MustParse | internal/components/auth/service.go:46 | `uuid.MustParse` returns the parsed id, or panics exactly when parsing fails |
| AuthService.ConfiguredUser | internal/components/auth/service.go:45-48 | the user both lookups return: the parsed configured id, the configured name and an empty hash |
| AuthService.ValidateCredentials | internal/components/auth/service.go:35-49 | a wrong name or a bcrypt mismatch gives `ErrInvalidCredentials`; success iff both checks pass (and the id parses), returning the configured user with an empty hash |
| AuthService.GetUserByID | internal/components/auth/service.go:52-60 | succeeds iff `userID.String()` is the configured id and that id parses, with the configured user; when `Parse` reads back what `String` wrote, the user found has exactly the id asked for; a different id gives "user not found" |
| AuthService.GetSecretKey | internal/components/auth/service.go:63-69 | the key is the hex decoding, half as long as the string; a panic iff the string is not valid hex |
| AuthService.FailuresIndistinguishable | internal/components/auth/service.go:36-43 | unknown name and wrong password give the same error, and a wrong name does not depend on bcrypt at all |
| AuthService.GetUserByIDFindsConfigured | internal/components/auth/service.go:52-60 | with a well-formed configured id, exactly that UUID finds the configured user and every other UUID is not found |
| AuthService.ValidatedUserFoundByID | internal/components/auth/service.go:35-60 | the user a login returns is found again by its id |
| AuthService.GetSecretKeyDecodes | internal/components/auth/service.go:63-69 | a key configured as the hex encoding of some bytes is returned as those bytes |
| AuthRouter.LogInOutcome | internal/components/auth/router.go:39-59 | 401 iff the credentials are rejected; a panic iff the configured id or key is malformed; 500 iff they are accepted but `encrypt` fails; logged in iff validation, key decoding and `encrypt` all succeed, and then the cookie carries the token issued for the validated user's id under `GetSecretKey()` |
| AuthRouter.HandleLogInFlow | internal/components/auth/router.go:30-66 | 401 with `Content-Type: text/html` and the fixed body and no cookie; or 500 with its fixed body and no cookie; or status 200, `HX-Redirect: /` and exactly the session cookie; nothing is written before a panic |
| AuthRouter.RejectedLoginSetsNoCookie | internal/components/auth/router.go:39-48 | a wrong name or password always takes the 401 exit, before `SetCookie` |
| AuthRouter.LoginAdmitsConfiguredUser | internal/components/auth/router.go:39-65 | with the right credentials the login succeeds, and a request carrying its cookie passes the middleware as the configured user |
| Strconv.DecimalSpells | internal/components/activity/repo.go:76 | `%d` of a natural number is a non-empty run of digits, without a leading zero, whose value is the number |
| Strconv.Itoa | internal/components/activity/router.go:299 | `strconv.Itoa` writes a `-` exactly for negative numbers, followed by the digits of the magnitude |
| Strconv.Atoi | internal/components/activity/router.go:70 | `strconv.Atoi` only accepts non-empty input and values in the 64-bit range; the value it reads is stated by `Strconv.AtoiSpells` |
| Strconv.AtoiSpells | internal/components/activity/router.go:70 | `Atoi(s)` is `v` iff `v` is in the 64-bit range and `s` is an optional sign (`-` only for `v <= 0`), any number of zeros, then the decimal digits of `|v|`, so `"+5"`, `"007"` and `"-0"` are read as 5, 7 and 0 |
| Strconv.AtoiItoa | internal/components/activity/router.go:299 | every 64-bit integer written by `Itoa` is read back by `Atoi` |
| Strconv.DecimalInjective | internal/components/activity/repo.go:76 | different numbers have different decimal forms |
| Strconv.AtoiRejectsNonDigit | internal/components/activity/router.go:197 | a string with a character that is neither a digit nor a leading sign is not an integer |
| Sql.PlaceholderSpells | internal/components/activity/repo.go:76 | `$k` is `$` followed by the decimal digits of `k` |
| Sql.PlaceholderInjective | internal/components/activity/repo.go:76-82 | distinct placeholder numbers are written differently, so each `$k` names one argument |
| Sql.Conditions | internal/components/activity/repo.go:71-85 | the i-th condition of a list numbered from `$first` carries placeholder `first + i` |
| Sql.Values | internal/components/activity/repo.go:72-83 | the argument list holds each binding's value at its own position |
| Sql.ValuesBind | internal/components/activity/repo.go:104 | arguments laid out as a prefix, the bindings' values, then a suffix bind `$(len(prefix)+1)`... to exactly those values |
| Sql.ConditionsSnoc | internal/components/activity/repo.go:76-82 | adding a binding adds one condition, with the next placeholder number |
| Sql.ValuesSnoc | internal/components/activity/repo.go:77-83 | adding a binding appends its value |
| Sql.JoinSnoc | internal/components/activity/repo.go:198 | `strings.Join` of one more element puts the separator before it |
| Sql.JoinStartsWith | internal/components/activity/repo.go:198 | a joined list begins with its first element |
| Sql.UpdateFields | internal/components/activity/repo.go:170-184 | the set fields, in the order name, duration, date: at most three, and none exactly when every field is nil |
| Sql.BuildSetParts | internal/components/activity/repo.go:166-184 | starting from `[id, owner]` and `$3`: the SET parts are the non-nil fields' assignments in order, the arguments are `[id, owner]` followed by their values, and `argIndex == len(args) + 1` |
| Sql.UpdateBindsFields | internal/components/activity/repo.go:166-184 | every `$k` in the SET list is bound to the value of the field it assigns |
| Sql.SetListEndsWithNow | internal/components/activity/repo.go:191-198 | the joined SET list always ends with `updated_at = NOW()` |
| Sql.FromRow | internal/components/activity/repo.go:145-158 | a single-row read returns the row, or the driver's error |
| Sql.DeleteOutcome | internal/components/activity/repo.go:220-229 | no error iff the statement succeeded and affected a row; zero rows gives "activity not found"; a failed statement passes its error on |
| Sql.ScanRows | internal/components/activity/repo.go:112-128 | all rows scanned, in order, iff every row scans; otherwise the error of the first row that fails |
| Sql.Offset | internal/components/activity/repo.go:68 | for page ≥ 1 the offset is non-negative, a multiple of the page size, and skips exactly `page - 1` pages |
| Sql.Wrap64 | internal/components/activity/repo.go:68 | Go's 64-bit `int` arithmetic: the value in the 64-bit range congruent to the exact result |
| Sql.Offset64 | internal/components/activity/repo.go:68 | the offset in 64-bit `int`s, in range, and equal to the exact offset whenever that fits |
| Sql.OffsetOverflow | internal/components/activity/repo.go:68 | page 2^62 + 1 with 20 rows per page gives offset 0 (the first page) and page 2^62 gives -20 |
| ActivityRepo.WhereStep | internal/components/activity/repo.go:75-85 | a WHERE clause grows by ` AND ` and one condition numbered after the previous ones |
| ActivityRepo.DateStep | internal/components/activity/repo.go:75-85 | the date-filter text appended (`date >= $k` for the start date, `date <= $k` for the end date) is the clause of one more binding, numbered next |
| ActivityRepo.OwnerClause | internal/components/activity/repo.go:71-72 | the builder's start is the clause and argument of the owner binding |
| ActivityRepo.BuildWhere | internal/components/activity/repo.go:71-85 | the clause is the owner condition then the given start and end dates, each with its own argument, and `argIndex == len(args) + 1` |
| ActivityRepo.ListSqlEndsWithPage | internal/components/activity/repo.go:96-101 | the page query ends with `LIMIT $argIndex OFFSET $argIndex+1` |
| ActivityRepo.List | internal/components/activity/repo.go:67-136 | sends the count and then the page query with the same filters; a failed count or query returns its error; success iff every row scans, with the total, page and limit passed through |
| ActivityRepo.ListBindsInOrder | internal/components/activity/repo.go:87-104 | the filters bind `$1`..., `LIMIT` binds the page size and `OFFSET` the offset, the last two arguments; the count binds the same filter arguments |
| ActivityRepo.WhereStartsWithOwner | internal/components/activity/repo.go:71-85 | every listing's WHERE clause begins with `user_id = $1`, bound to the caller's id |
| ActivityRepo.Update | internal/components/activity/repo.go:164-215 | with no field set, the read-back query `GetByID` is sent instead of an UPDATE; otherwise the UPDATE with the SET list; the row or the error is returned |
| ActivityRepo.UpdateBindsInOrder | internal/components/activity/repo.go:166-184 | the UPDATE binds `$1` to the id, `$2` to the owner and `$3`... to the fields set |
| ActivityRepo.Delete | internal/components/activity/repo.go:217-230 | the DELETE binds id and owner; no error iff a row was affected; zero rows gives "activity not found"; a failed Exec passes its error on |
| ActivityService.InsertStatement | internal/components/activity/service.go:24-38 | the INSERT binds the owner and then the name, duration and date |
| ActivityService.CreateActivity | internal/components/activity/service.go:21-52 | a failed INSERT still returns a record (the zero one) together with the error; success returns the row |
| ActivityService.BulkCreateActivities | internal/components/activity/service.go:54-69 | one INSERT per input, in order; on success one created activity per input and `Count` equal to their number; at the first failure it stops with exactly the earlier successes and `Count` 0 |
| ActivityService.GetActivities | internal/components/activity/service.go:71-120 | sends the count and then the page query; a failed count or query returns its error; success iff every row scans, with the rows in order |
| ActivityService.PageSkipsEarlierPages | internal/components/activity/service.go:72-90 | the page query's offset argument is a non-negative multiple of the page size that skips `page - 1` pages |
| ActivityService.PageOffsetAsGo | internal/components/activity/service.go:72 | while `(page - 1) * limit` fits in 64 bits, the offset the page query binds is the one Go computes |
| ActivityService.GetActivityByID | internal/components/activity/service.go:122-143 | binds id and user name; returns the row iff the read succeeds, otherwise the driver's error wrapped as a database error |
| ActivityService.UpdateActivity | internal/components/activity/service.go:145-196 | with no field set, delegates to `GetActivityByID`; otherwise sends the UPDATE with the SET list ending `updated_at = NOW()` |
| ActivityService.UpdateBindsInOrder | internal/components/activity/service.go:146-165 | the UPDATE binds `$1` to the id, `$2` to the user name and `$3`... to the fields set |
| ActivityService.DeleteActivity | internal/components/activity/service.go:198-211 | the DELETE binds id and user name; no error iff a row was affected; zero rows gives "activity not found"; a failed Exec passes its error on |
| ActivityRouter.ParseActivitiesQuery | internal/components/activity/router.go:63-90 | page ≥ 1 and page size in 1..100 always; `page` overrides the default 1 iff it is a positive integer, `page_size` the default 20 iff it is an integer in 1..100; a date filter is set iff its parameter is present and parses |
| ActivityRouter.PageLinkParses | internal/components/activity/router.go:69-73 | every page number the listing links to is read back as that page |
| ActivityRouter.CeilDiv | internal/components/activity/router.go:100 | the page count is the least number of pages of `limit` rows that holds `total` rows |
| ActivityRouter.CeilDivUnique | internal/components/activity/router.go:100 | that page count is the only one that fits |
| ActivityRouter.Paginate | internal/components/activity/router.go:100-108 | `totalPages` is the ceiling of total / limit; `nextPage` is `min(page + 1, totalPages)` and `prevPage` is `max(page - 1, 1)`; with no rows there are no pages and the next-page link is page 0 |
| ActivityRouter.EmptyListingHasNoPages | internal/components/activity/router.go:100-101 | with no rows the page count is 0, for every page size |
| ActivityRouter.GetEditForm | internal/components/activity/router.go:196-204 | a non-integer `{id}` is a 400 before any service call; otherwise the activity with that id is read |
| ActivityRouter.DeleteActivity | internal/components/activity/router.go:239-248 | a non-integer `{id}` gets the error fragment before any service call; otherwise that id is deleted |
| ActivityRouter.DeleteReply | internal/components/activity/router.go:248-259 | the reply is HTML with status 200; on success it carries `HX-Trigger: refreshTable` and the success message, on failure only the content type and the failure message |
| ActivityRouter.UpdateBody | internal/components/activity/router.go:334-350 | each field is set iff its form value is non-empty and parses, and then to the parsed value |
| ActivityRouter.UpdateActivity | internal/components/activity/router.go:317-352 | the id is checked first, then the form; the service is called iff both are good, with the id and the form's partial update |
| ActivityRouter.CancelEdit | internal/components/activity/router.go:386-391 | a non-integer `{id}` is a 400; otherwise the buttons are for that id |
| ActivityRouter.BadIDCallsNothing | internal/components/activity/router.go:196-391 | a non-integer `{id}` reaches no service call in any of the four handlers |
| ActivityRouter.EmptyFormUpdatesNothing | internal/components/activity/router.go:334-350 | the update sets nothing (and only reads back) exactly when every form value is empty or fails to parse |
| ActivityRouter.EditFormRoundTrip | internal/components/activity/router.go:211-225 | the edit form, submitted unchanged, asks to set each field to its current value (the name only when it is non-empty) |
| ActivityRouter.ExportReadsFirstPage | internal/components/activity/router.go:270-275 | the export reads the owner's first 10000 rows: offset 0, no date filter |
| ActivityRouter.CsvRecord | internal/components/activity/router.go:297-302 | one record per activity with one field per header column: name, duration, date, creation time |
| ActivityRouter.CsvDurationReadsBack | internal/components/activity/router.go:299 | the exported duration reads back as the activity's duration |
| ActivityRouter.ExportRecords | internal/components/activity/router.go:289-307 | the header, then one record per activity in the service's order |

Definitions without a row of their own are used by the rows above, which state their
properties:
- `Sql.Join` is `strings.Join`; `Sql.JoinSnoc` and `Sql.JoinStartsWith` state it.
- `ActivityRouter.PlainError` is `http.Error` (status, `text/plain` with `nosniff`, the
  message and a newline), and `ActivityRouter.Fragment` an HTML fragment written with the
  implicit 200. The handlers' rows state the replies built from them.
- `Http.ResponseWriter` is net/http's response writer: `SetHeader` and `AddCookie` change
  nothing once a status is written, `WriteHeader` keeps only the first status, and `Write`
  sends 200 first when no status was written. Each method states its whole new state;
  `Cookie.SetCookie` and `AuthRouter.HandleLogInFlow` are stated through them.
- The statement functions hold the SQL text and arguments the source sends:
  `RepoStatements.CountStatement`, `PageStatement`, `ListStatement`, `GetByIDStatement`,
  `UpdateStatement` and `DeleteStatement` for `repo.go`, and
  `ActivityService.CountStatement`, `PageStatement`, `GetByIDStatement` and
  `UpdateStatement` for `service.go`. `ActivityRepo.ListBindsInOrder`,
  `ActivityRepo.UpdateBindsInOrder`, `ActivityService.PageSkipsEarlierPages` and
  `ActivityService.UpdateBindsInOrder` state which argument each placeholder binds.

## Left out

- AES-GCM itself, its secrecy and nonce uniqueness are not modelled: sealing and opening are parameters with the two laws above. The nonce is whatever the random source delivers.
- `uuid.Parse` is not modelled beyond reading back the canonical form; the other spellings it accepts are not part of this model.
- bcrypt, `time.Parse` and `time.Format` are parameters. A `time.Time` is an opaque instant.
- Database execution is not modelled. The count, the rows, the scan results and `RowsAffected` are parameters, and the repository and service are modelled as the statements they send.
- Connection pools, contexts and `rows.Close` are not modelled. `rows.Err()` after the loop is not consulted, as in the source.
- Logging is not modelled, and neither is anything else written only to the logs.
- HTML templates and the HTML the handlers format after a service call are not modelled. This covers the listing table, the edit form, and the action buttons of `UpdateActivity` and `CancelEdit`. The handlers are modelled up to the service call they make, plus `DeleteActivity`'s reply.
- The router's `GetActivities` 500 reply on a service error is not modelled. Its query parsing and page links are.
- The router's `CreateActivity` handler is not modelled. The repository's `Create` is not modelled, and `GetByID` only as the statement `Update` falls back on.
- The `encoding/csv` writer is not modelled: its quoting, its errors and the `text/csv` response headers. `ExportRecords` states the records handed to it.
- `ParseForm` is not modelled; its failure is the `None` form.
- The request's cookie header parsing is not modelled; cookies are given as a list of name/value pairs.
- The body `http.Redirect` writes is not modelled, only its location and status.
- Logout, server wiring, health checks, configuration loading and the hash tool are not part of this model.
- ActivityRouter.CeilDiv: computes `ceil(total / limit)` on integers. The source uses `float64`, which loses precision for totals beyond 2^53.
- ActivityRouter.Paginate: `nextPage` is `page + 1` in unbounded integers. Go's `page + 1` wraps for `page` equal to the largest 64-bit `int`. It requires a page size of at least 1, which `ParseActivitiesQuery` guarantees.
- ActivityService.CreateActivity: on a failed INSERT it returns the zero record. In the source, a scan that fails part-way could leave some fields filled.
- ActivityRouter.CancelEdit: returns the id the action buttons are rendered for, not their HTML.
- Integer widths: ids, durations and page sizes are unbounded integers. `strconv.Atoi` is limited to the 64-bit range. The page offset's 64-bit wrap-around is modelled only by `Sql.Offset64` and the finding below; the listing operations bind the exact offset.
- ActivityRepo.List: binds the exact offset `Sql.Offset`, the corrected definition of the finding below. Go binds the 64-bit wrapped product `Sql.Offset64`, which differs once `(page - 1) * limit` exceeds 2^63 - 1, that is from page (2^63 - 1) / limit + 2 on (page 461168601842738792 at the default limit 20).
- ActivityService.GetActivities: binds the exact offset `Sql.Offset`, like `ActivityRepo.List`. Go's wrapped offset differs from page (2^63 - 1) / limit + 2 on; `ActivityService.PageOffsetAsGo` proves the two agree below that.
- ActivityService.PageSkipsEarlierPages: holds of the exact offset the model binds. The source's wrapped offset breaks it for large pages, as the finding below shows; below the overflow `ActivityService.PageOffsetAsGo` carries it over to the source's offset.

## Findings

| source | as written | input that shows it | evidently intended | confidence | as-written member | corrected member |
|---|---|---|---|---|---|---|
| internal/components/activity/repo.go:68 | `offset := (query.Page - 1) * query.Limit` in 64-bit `int`. `router.go` accepts any positive `page` up to 2^63 - 1, so the product wraps. The same line is `service.go:72`. | `page=4611686018427387905` (2^62 + 1) with the default page size 20 gives offset 0, so the first page is served as that page; `page=4611686018427387904` gives offset -20, which PostgreSQL rejects | the offset skips exactly the rows of the `page - 1` earlier pages: non-negative and a multiple of the page size | high; not executed | Sql.OffsetOverflow | Sql.Offset |
