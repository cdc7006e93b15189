# Answer42 authentication core, modelled in Dafny

Answer42 is a teaching web application for password authentication. An Express
backend stores accounts in SQLite, hashes passwords with Argon2id, locks an
account after five wrong passwords, and keeps per-account histories of the IP
addresses and device fingerprints it has seen. It writes an audit trail of
registrations and logins, and answers errors through one central handler. A
React frontend validates the registration form before sending it and shows the
histories and login alerts on a dashboard.

This project models that core as Dafny definitions and proves properties of them:

- `Common`: JavaScript truthiness, SQLite's NOCASE comparison and the
  character classes of the regular expressions.
- `Errors`: the error classes and the global error handler.
- `Validate`: the request-validation middleware and the HTML escaping of strings.
- `Middleware`: the two session guards.
- `Logger`: the redaction of sensitive fields before logging.
- `Device`: the device-hash format check and the server-side fingerprint hash.
- `Provenance`: the bounded IP and device histories and the novelty alerts.
- `Audit`: the audit log and its two queries.
- `Auth`: registration and the login state machine over the users table.
- `Users`: the profile queries and the account-age phrase.
- `RegisterForm`: the client-side rules of the registration form, and how it
  handles a server error.
- `Dashboard`: the display helpers.
- `Timestamps`: how the failed-login query compares texts.
- `SeqUtil`: the `WHERE` / `ORDER BY` helpers the queries are built from.

State that the source changes in place is modelled by classes:

- `Auth.AccountStore` for the users table;
- `Audit.AuditLog` for the audit table;
- `Middleware.Request` for the request;
- `Logger.LogInfo` for a log entry;
- `RegisterForm.Form` for the form's React state.

The pure logic is functions, and each property is a lemma about those functions.

Modelling choices:

- The clock is an integer `now` in milliseconds, passed in.
- Argon2id is a symbolic hash that verifies exactly the password it was made from.
- SHA-256 is a function parameter that returns 64 lowercase hexadecimal characters.
- Whether an audit insert succeeds is the boolean `persisted`.
- The reply of the register request is a parameter of `HandleSubmit`.

## Model

| member | source | states |
|---|---|---|
| Common.CaseVariantsCollide | backend/src/config/database.js:47-48 | two names that differ only in ASCII letter case are equal under COLLATE NOCASE |
| Errors.AppError | backend/src/utils/errors.js:11-20 | every AppError is operational, keeps its message and status, and has code 'ERROR' unless given one |
| Errors.ValidationError | backend/src/utils/errors.js:25-30 | status 400, code VALIDATION_ERROR, details defaulting to the empty list |
| Errors.AuthenticationError | backend/src/utils/errors.js:35-40 | status 401, code AUTHENTICATION_ERROR, message defaulting to 'Credenciales inválidas' |
| Errors.AuthorizationError | backend/src/utils/errors.js:45-49 | status 403, code AUTHORIZATION_ERROR, with its default message |
| Errors.NotFoundError | backend/src/utils/errors.js:54-58 | status 404, code NOT_FOUND, with its default message |
| Errors.NotFoundHandler | backend/src/utils/errors.js:63-69 | unknown routes get 404 NOT_FOUND with no details or debug field |
| Errors.ErrorHandler | backend/src/utils/errors.js:75-109 | status is statusCode, else status, else 500; non-operational messages are hidden behind a fixed text; code defaults to INTERNAL_ERROR; details appear iff the error is a ValidationError with details; debug appears iff development and non-operational |
| Errors.StatusCodeTable | backend/src/utils/errors.js:25-58 | each error class answers with its own status and code and keeps its message |
| Errors.AppErrorsNeverDebug | backend/src/utils/errors.js:101-106 | an operational error never gets a debug field, in any mode |
| Errors.DefaultDetailsAlwaysSent | backend/src/utils/errors.js:26 | a ValidationError built without details still answers with an empty details list |
| Validate.SanitizeString | backend/src/middleware/validate.js:39-48 | a non-string passes unchanged; a string becomes its single-pass HTML escape |
| Validate.SanitizeText | backend/src/middleware/validate.js:42-47 | the five replacements never shorten the text, and leave text without any of the five characters unchanged |
| Validate.SanitizeIsSinglePassEscape | backend/src/middleware/validate.js:42-47 | because '&' is replaced first, the five replacements are exactly one left-to-right entity escape |
| Validate.NoRawMarkup | backend/src/middleware/validate.js:42-47 | the escaped text contains no raw < > " or ' |
| Validate.CleanTextUnchanged | backend/src/middleware/validate.js:42-47 | text without any of the five special characters is returned unchanged |
| Validate.EscapeRoundTrip | backend/src/middleware/validate.js:42-47 | decoding the five entities restores the original string, so escaping loses nothing |
| Validate.ValidateRequest | backend/src/middleware/validate.js:14-33 | without errors `next()` is called; with errors the answer is 400 VALIDATION_ERROR with one {field, message} per error, in order |
| Validate.ValidateRequestMatchesErrorHandler | backend/src/middleware/validate.js:25-29 | the middleware's own 400 answer equals the error handler's answer to a ValidationError with the same details |
| Middleware.RequireAuth | backend/src/middleware/auth.js:13-23 | the request proceeds iff there is a session with a truthy userId; otherwise 401 UNAUTHORIZED with the fixed message |
| Middleware.SessionUserOf | backend/src/middleware/auth.js:30-35 | a user is attached iff the session's userId is truthy, carrying the session's id and username |
| Middleware.GuardsAgree | backend/src/middleware/auth.js:13-37 | a request passes requireAuth exactly when optionalAuth attaches a user to it |
| Middleware.Request.OptionalAuth | backend/src/middleware/auth.js:29-37 | `next` is always called; req.user is set from the session when authenticated, else left as it was |
| Logger.RedactField | backend/src/utils/logger.js:21-25 | a sensitive field with a truthy value becomes '[REDACTED]'; any other field keeps its value |
| Logger.Redact | backend/src/utils/logger.js:18-29 | an object or null becomes an object, an object keeping exactly its keys and null becoming {}; any other message is returned as it is |
| Logger.LogInfo.FilterSensitive | backend/src/utils/logger.js:18-29 | the loop over the five sensitive names leaves the message equal to its redacted copy; a null message becomes {} |
| Logger.NonObjectsPassThrough | backend/src/utils/logger.js:19 | a message that is not an object is not touched |
| Logger.RedactionFieldByField | backend/src/utils/logger.js:20-26 | an object keeps its keys; exactly the truthy sensitive fields are replaced |
| Logger.NothingSensitiveSurvives | backend/src/utils/logger.js:16-26 | after redaction, every sensitive field is either falsy or '[REDACTED]' |
| Logger.RedactIdempotent | backend/src/utils/logger.js:18-29 | redacting twice gives the same message as redacting once |
| Device.IsValidDeviceHash | backend/src/services/deviceService.js:50-54 | falsy or non-string input is refused; a string is accepted iff it has 16 characters, all hex digits in either case |
| Device.Render | backend/src/services/deviceService.js:24-29 | a missing field reads 'unknown', a null one joins as '', a string as itself |
| Device.Fingerprint | backend/src/services/deviceService.js:24-36 | the fingerprint begins with the rendered user agent and a separator, and ends with a separator and the rendered timezone |
| Device.FingerprintSplitsBack | backend/src/services/deviceService.js:31-36 | when no field contains the separator, splitting the fingerprint at each separator gives back the four rendered fields |
| Device.FingerprintInjective | backend/src/services/deviceService.js:31-36 | two devices whose fields are free of the separator share a fingerprint only if their rendered fields agree |
| Device.MissingIsUnknown | backend/src/services/deviceService.js:24-29 | a missing user agent and the literal text 'unknown' give the same fingerprint |
| Device.GenerateDeviceHash | backend/src/services/deviceService.js:23-43 | the hash is the first 16 characters of the digest: 16 lowercase hex characters that prefix the digest |
| Device.GeneratedHashIsValid | backend/src/services/deviceService.js:38-54 | every hash the server generates passes its own format check |
| Provenance.CountOr1 | frontend/src/components/Dashboard.jsx:146 | the connections shown: always at least 1, the count itself when present and non-zero |
| Provenance.CheckNewIpAndDevice | backend/src/services/authService.js:177-219 | alerts in order NEW_IP, NEW_DEVICE, NEW_IP_AND_DEVICE, from the histories stored before the login; severity is high exactly for the combined alert |
| Provenance.AlertRules | backend/src/services/authService.js:184-216 | each alert kind is emitted exactly when its rule holds, and never twice |
| Provenance.IndexOfKey | backend/src/services/authService.js:229 | `findIndex`: None iff the key is absent, otherwise the first position holding it |
| Provenance.Merge | backend/src/services/authService.js:228-262 | the key is in the new history; a known key keeps the length, a new one adds an entry up to the cap of 20 |
| Provenance.UpdateHistoryList | backend/src/services/authService.js:228-241 | the scan-and-update loop computes the history merge: in place for a known key, prepend-and-cut otherwise |
| Provenance.KnownKeyUpdatedInPlace | backend/src/services/authService.js:231-234 | a known key keeps its position; its timestamp is refreshed and its count becomes (count or 1) + 1; nothing else changes |
| Provenance.NewKeyPrepended | backend/src/services/authService.js:235-240 | an unseen key is prepended with count 1, and a full list drops its last entry |
| Provenance.MergePreservesWellFormed | backend/src/services/authService.js:228-262 | a history stays at most 20 entries with no repeated key, and it contains the new key |
| Provenance.RepeatLoginIsQuiet | backend/src/services/authService.js:146-149 | after a login is merged, repeating it from the same ip and device raises no alert |
| Provenance.DistinctObservationsKeepMostRecent | backend/src/services/authService.js:235-240 | after observations of distinct new keys, the history is those keys newest first followed by the old ones, cut to 20 |
| Audit.AuditLog.LogAction | backend/src/services/auditService.js:12-44 | one row is appended when the insert succeeds; a failed insert is swallowed and appends nothing |
| Audit.StoredReadsBack | backend/src/services/auditService.js:29-37 | reading a logged row back restores its fields, with {} for omitted details and success as a boolean |
| Audit.SecondOf | backend/src/config/database.js:79 | a stamp is the whole second holding the instant: a multiple of 1000 ms, at most the instant and less than 1000 ms before it |
| Audit.SameSecondSameStamp | backend/src/config/database.js:79 | two rows logged within the same second get the same `created_at` |
| Audit.GetAuditHistory | backend/src/services/auditService.js:49-65 | every returned row belongs to the user, and there are `limit` of them, or all of the user's rows when the limit is negative or larger |
| Audit.AuditHistoryLength | backend/src/services/auditService.js:49-58 | at most `limit` rows, and all of the user's rows when the limit is negative or large |
| Audit.AuditHistoryOnlyOwnRows | backend/src/services/auditService.js:52-64 | every returned row is a stored row of that user |
| Audit.AuditHistoryNewestFirst | backend/src/services/auditService.js:56-57 | rows come newest first |
| Audit.AuditHistoryKeepsNewest | backend/src/services/auditService.js:56-57 | no row of the user stamped a later second than the last one returned is left out: the rows are the top of the history by creation time |
| Audit.Groups | backend/src/services/auditService.js:76-80 | one group per distinct ip of the window, each with its count and latest attempt |
| Audit.GetRecentFailedLogins | backend/src/services/auditService.js:70-86 | every reported ip has at least 3 attempts, and the counts never increase down the list |
| Audit.RecentFailedLoginsRows | backend/src/services/auditService.js:70-86 | every reported ip has at least 3 failed logins after the cutoff, with its count and latest attempt |
| Audit.RecentFailedLoginsComplete | backend/src/services/auditService.js:75-83 | every ip with at least 3 failed logins after the cutoff is reported |
| Audit.RecentFailedLoginsOrdered | backend/src/services/auditService.js:80-82 | rows are ordered by count, largest first, and no ip appears twice |
| Auth.HashVerifies | backend/src/services/authService.js:39 | a stored hash verifies the password it was made from, and no other |
| Auth.FindByUsername | backend/src/services/authService.js:79-81 | the lookup finds a row iff some username is equal under NOCASE |
| Auth.LookupIsCaseInsensitive | backend/src/services/authService.js:79-81 | on a valid table, any case variant of a username finds the same one account |
| Auth.LoginStep | backend/src/services/authService.js:75-172 | the row count is kept; the login succeeds iff the username is found, the account is unlocked and the password verifies; every failure is an AuthenticationError; an unknown user changes nothing; only the lock refusal logs no audit record |
| Auth.NewAccount | backend/src/services/authService.js:39-51 | the inserted row verifies the password; its histories hold one entry without a count; the counters are clear |
| Auth.RegisterPreservesValid | backend/src/services/authService.js:29-51 | inserting a row that collides with nobody keeps ids sequential, names unique under NOCASE and histories bounded |
| Auth.AccountStore.Register | backend/src/services/authService.js:25-69 | a taken username or email gives one generic ValidationError and no change; otherwise one account is inserted, a REGISTER record is logged if the insert succeeds, and {id, username} is returned |
| Auth.LoginPreservesValid | backend/src/services/authService.js:75-172 | every login attempt keeps the table valid |
| Auth.UnknownUserLooksLikeWrongPassword | backend/src/services/authService.js:84-98 | an unknown username changes nothing, logs USER_NOT_FOUND with no user id, and fails with the same error as a wrong password |
| Auth.LockedAccountRefused | backend/src/services/authService.js:101-103 | while locked, every password is refused with the lock message, and nothing is changed or logged |
| Auth.WrongPasswordCounts | backend/src/services/authService.js:108-136 | a wrong password adds one to the counter and locks for 15 minutes iff the count reaches 5; the new count is logged |
| Auth.CorrectPasswordLogsIn | backend/src/services/authService.js:138-171 | a correct password clears counter and lock and stamps the login; alerts come from the old histories, which are then merged; the previous last-login is returned |
| Auth.WrongPasswordsAccumulate | backend/src/services/authService.js:108-123 | k wrong passwords in a row raise the counter by k, and lock exactly when it reaches 5 |
| Auth.FailRowCounts | backend/src/services/authService.js:108-123 | after k failures the row's counter has risen by k and its lock is the one the last failure set, or none |
| Auth.FailuresChangeOneRow | backend/src/services/authService.js:108-123 | consecutive wrong passwords on an unlocked account change only that account's row |
| Auth.LoginManyKeepsLookup | backend/src/services/authService.js:79-81 | no sequence of attempts changes which row a username finds |
| Auth.FiveFailuresLockOut | backend/src/services/authService.js:101-117 | five wrong passwords lock a fresh account, and the right password within 15 minutes is refused |
| Auth.RegisteredAccountLogsIn | backend/src/services/authService.js:25-172 | a fresh account logs in with its password under any case of its username, with no alerts from its registration ip and device |
| Auth.AccountStore.Login | backend/src/services/authService.js:75-172 | the step-by-step method yields LoginStep's result and new table, and appends its audit row when the insert succeeds |
| Auth.AccountStore.Attempt | backend/src/services/authService.js:78-166 | the lookup, lock check, password check and row update yield LoginStep's result, table and audit record, and keep the table valid |
| Users.FindById | backend/src/services/userService.js:15-27 | the lookup finds a row iff some row has that id |
| Users.DiffDays | backend/src/services/userService.js:83-84 | whole days, rounded down, also for a negative difference |
| Users.CalculateAccountAge | backend/src/services/userService.js:80-91 | under a day old reads 'Hoy', between one and two days '1 día', and from a day on never 'Hoy' |
| Users.AgeBuckets | backend/src/services/userService.js:86-90 | 'Hoy', '1 día', N días below 30, whole 30-day months below 365, then whole 365-day years |
| Users.TodayMeansUnderADay | backend/src/services/userService.js:80-86 | 'Hoy' exactly when the account is between 0 and 1 day old |
| Users.FutureCreationShowsNegativeDays | backend/src/services/userService.js:83-88 | any creation time in the future shows as a negative day count; one less than a day ahead shows '-1 días' |
| Users.GetUserProfile | backend/src/services/userService.js:12-53 | an unknown id is NotFoundError; otherwise the row is echoed with null histories read as [] and stats counting them |
| Users.GetUserHistory | backend/src/services/userService.js:58-75 | fails with NotFoundError exactly for an unknown id |
| Users.ProfileAndHistoryAgree | backend/src/services/userService.js:34-73 | both queries fail together and return the same histories, of at most 20 entries each |
| Users.ProfileOfIdIsRow | backend/src/services/userService.js:26-31 | on a valid table, every id from 1 to the row count finds its own row |
| RegisterForm.WithField | frontend/src/components/RegisterForm.jsx:23 | only the named field takes the new value |
| RegisterForm.UsernameError | frontend/src/components/RegisterForm.jsx:37-41 | too short below 3 characters; otherwise an error iff some character is outside [a-zA-Z0-9_] |
| RegisterForm.EmailPatternMeaning | frontend/src/components/RegisterForm.jsx:44 | the email pattern accepts exactly: no whitespace, a single '@' not first, and a '.' inside the domain |
| RegisterForm.PasswordError | frontend/src/components/RegisterForm.jsx:49-53 | too short below 8 characters; otherwise an error iff the three lookaheads fail |
| RegisterForm.PasswordPatternOnOneLine | frontend/src/components/RegisterForm.jsx:51 | on one line, the pattern asks for a lowercase letter, an uppercase letter and a digit anywhere |
| RegisterForm.PasswordPatternIsPerLine | frontend/src/components/RegisterForm.jsx:51 | the pattern holds iff one stretch of text without a line terminator contains a lowercase letter, an uppercase letter and a digit |
| RegisterForm.LineBreakDefeatsPattern | frontend/src/components/RegisterForm.jsx:51 | an instance: 'aB', a line feed and '1' fail the pattern although all three classes occur |
| RegisterForm.FormErrorsMeaning | frontend/src/components/RegisterForm.jsx:33-62 | one error per failing field and no other key; the form is valid exactly when every rule passes |
| RegisterForm.DetailsMap | frontend/src/components/RegisterForm.jsx:93-96 | a field has an error iff some detail names it |
| RegisterForm.DetailsMapLastWins | frontend/src/components/RegisterForm.jsx:94-96 | a field shows the message of its last detail |
| RegisterForm.DetailsToErrors | frontend/src/components/RegisterForm.jsx:93-96 | the forEach loop builds exactly that map |
| RegisterForm.ErrorState | frontend/src/components/RegisterForm.jsx:90-100 | non-empty details go to the fields; anything else shows the message, or the fallback text |
| RegisterForm.ErrorStateAsWritten | frontend/src/components/RegisterForm.jsx:92-100 | as written, any details array, even an empty one, goes to the fields and clears the general error, so empty details leave nothing to show; without details a non-empty general error is shown |
| RegisterForm.DuplicateRegistrationSilentAsWritten | frontend/src/components/RegisterForm.jsx:92 | as written, the duplicate-registration error puts nothing on screen |
| RegisterForm.DuplicateRegistrationShown | frontend/src/components/RegisterForm.jsx:90-100 | with empty details treated as none, an error without field details always shows a message, and the duplicate error shows its own text |
| RegisterForm.Form.HandleChange | frontend/src/components/RegisterForm.jsx:21-30 | the field takes the value; its error, if set, is emptied and no other error changes; the general error is cleared |
| RegisterForm.Form.ValidateForm | frontend/src/components/RegisterForm.jsx:33-62 | errors become the rule failures of the current data, and the result is true iff every rule passes |
| RegisterForm.Form.HandleSubmit | frontend/src/components/RegisterForm.jsx:64-104 | invalid data stops before the request with loading untouched; success sets `success`; a failure is mapped onto the form; loading ends false |
| Dashboard.TruncateUserAgent | frontend/src/components/Dashboard.jsx:227-231 | a missing or empty agent reads 'Desconocido'; up to 50 characters are kept; longer ones become the first 47 plus '...', exactly 50 long |
| Dashboard.TruncatedAgentIsStable | frontend/src/components/Dashboard.jsx:227-231 | the shown agent is non-empty, at most 50 characters, and truncating it again changes nothing |
| Dashboard.AlertClass | frontend/src/components/Dashboard.jsx:69 | 'high' gets the error class; any other severity gets the warning class |
| Dashboard.AlertLabel | frontend/src/components/Dashboard.jsx:71-73 | NEW_IP is 'Nueva IP', NEW_DEVICE is 'Nuevo Dispositivo', anything else is 'IP y Dispositivo Nuevos' |
| Dashboard.LoginAlertsRenderByKind | frontend/src/components/Dashboard.jsx:66-73 | for a login's alerts, the error style goes exactly to the combined alert, and the three kinds get three different labels |
| Dashboard.RowsShape | frontend/src/components/Dashboard.jsx:142-147 | only row 0 is marked current; every row shows at least one connection; keys are distinct |
| Dashboard.RowsAfterLogin | frontend/src/components/Dashboard.jsx:178-183 | after a login from a new key, row 0 is that key with one connection; a known key's row stays in place with one more connection and is current only if it was first |
| Timestamps.AsWrittenComparesDatesOnly | backend/src/services/auditService.js:73-79 | as written, a stored row passes `created_at > cutoff` exactly when its date is after the cutoff's date |
| Timestamps.SameDayFailureNeverCounted | backend/src/services/auditService.js:73-79 | a failed login on the cutoff's own date is never counted, even when it is later than the cutoff |
| Timestamps.PadOrder | backend/src/config/database.js:79 | zero-padded numbers of equal width sort as text exactly as they sort as numbers |
| Timestamps.CorrectedCountsLaterRows | backend/src/config/database.js:79 | with the cutoff written in CURRENT_TIMESTAMP's own format, a row counts exactly when it is a later second than the cutoff |

## Left out

- Lengths and indices are counted in code points, not UTF-16 code units. A user agent or username with characters outside the Basic Multilingual Plane is measured differently from JavaScript.
- `IsSpace` lists the Unicode code points of `\s` by hand; no Unicode database is consulted.
- Argon2id and SHA-256 are symbolic. The hash verifies exactly its own password, which rules out collisions; the digest is a parameter assumed to be 64 lowercase hex characters.
- JSON serialisation of histories and details is left out. A stored history is its parsed value, and a NULL column is `None`.
- SQLite I/O is left out. Both tables are sequences, ids are positions plus one because the core never deletes, and the statements run atomically.
- Concurrency, `await` and the asynchronous order of operations are left out.
- Clocks are integer milliseconds given as parameters. Parsing the `locked_until` and `created_at` text back into a `Date`, with its timezone, is not modelled.
- `Audit.RecentFailures` compares instants as integers. The text comparison the query actually performs is modelled separately in `Timestamps`.
- `Audit.GetAuditHistory` breaks ties between equal `created_at` values in input order, where SQLite leaves their order unspecified. Rows logged within the same second share a stamp, so which of them a limit cuts off is not pinned down by the source.
- Audit.GetRecentFailedLogins: groups with equal counts keep the order in which their ip first appears, where SQLite leaves that order unspecified; a NULL ip, which would form a group of its own, is not representable because the ip is a string.
- `formatDate` and its `toLocaleString` output are locale formatting, and are left out.
- The winston transports, colours and timestamp format are left out, as is the `logger.*` output of every module.
- HTTP plumbing is left out: routes, express-validator's own rules, rate limiting, sessions, CSRF and the fetch wrapper beyond the error it throws.
- React rendering is left out: the JSX markup, navigation and the 2-second redirect timer.
- `RegisterForm.Form.HandleSubmit` takes the corrected branch (non-empty details only). The branch as written is `RegisterForm.ErrorStateAsWritten`; the Findings row names it through `RegisterForm.DuplicateRegistrationSilentAsWritten`, the lemma that applies it to the duplicate-registration error.
- `Middleware.RequireAuth` and `Middleware.Request.OptionalAuth` do not model the warning they log.
- `Device.IsValidDeviceHash` takes a JSON-like value; a non-string of any other JavaScript type is refused like a number or an object.

## Findings

| source | as written | input that shows it | evidently intended | confidence | as-written member | corrected member |
|---|---|---|---|---|---|---|
| frontend/src/components/RegisterForm.jsx:92 | `if (err.details)` takes the field branch for any details array. The server always sends `details: []` for a ValidationError built without details (errors.js:26 and 96-98), and `[]` is truthy, so no field error is set and the general error stays empty. | registering an already-taken username: the server answers 400 with error 'El usuario o email ya está registrado' and details [] | an error without field details shows its message in the general alert | high (not executed) | RegisterForm.DuplicateRegistrationSilentAsWritten | RegisterForm.DuplicateRegistrationShown |
| backend/src/services/auditService.js:73-79 | `created_at > ?` compares the stored text 'YYYY-MM-DD HH:MM:SS' (CURRENT_TIMESTAMP) with the cutoff from `toISOString()`, 'YYYY-MM-DDTHH:MM:SS.sssZ', as text. At the eleventh character ' ' sorts before 'T', so a row counts only when its date is after the cutoff's date. | a failed login stored as '2026-10-15 12:00:00', with the 15-minute window opening at '2026-10-15T11:45:00.000Z' | rows later than the cutoff are counted | high (not executed) | Timestamps.SameDayFailureNeverCounted | Timestamps.CorrectedCountsLaterRows |
