# Ambulance fleet back office, modelled in Dafny

The system is the back end of an ambulance fleet back office (`backend/`),
plus two date helpers of its web client. Dispatchers schedule *trabajos*
(jobs) and give each job vehicles, a driver responsible for each vehicle and
staff. The crew then photographs every vehicle from five sides. A job can be
closed only when the photos are complete and the closing odometer readings
are in; an early close also needs a reason. Users log in with a password.
They get a short-lived access token and a refresh token that is rotated on
every use. Repeated failed logins lock the account for a while. Role checks
decide who may manage users and vehicles. A command-line script creates the
first administrator.

The model keeps the handlers' own structure:

- The MySQL tables are sequences of rows held by two classes, `Store.Fleet`
  and `Store.Accounts`. A row's id is its position plus one.
- Every HTTP handler is a method that `modifies` one of them. Its `ensures`
  gives the response and the whole new table state.
- A transaction works on local copies and writes them back only where it
  would commit. A rolled-back request therefore leaves the state unchanged.
- The pure helpers are functions: the response envelope, paging, job
  identifiers, password rules, role checks, date helpers and the error
  mapper.
- The lemmas next to them state what the system promises:
  - identifiers numbered 1, 2, … within a year and never reused
  - a job closes only with complete evidence and odometer readings
  - the odometer ratchet never lowers a reading
  - a rotated refresh token is usable at most once
  - the lockout is counted over a sliding window whose length and threshold come from the environment (five failures in thirty minutes by default)
  - user, role and plate uniqueness are preserved
  - a gestor can neither edit an administrator nor grant the administrator role
  - the password prompt returns exactly what was typed twice
- Time is a `Store.Clock` parameter in milliseconds. The crypto primitives
  are function parameters: bcrypt, SHA-256, JWT signing and random tokens.

Modules, one per file:

| file | module | source |
|---|---|---|
| common.dfy | Common | JavaScript value helpers: `split`, `join`, `padStart`, `parseInt`, `trim`, the or-null default |
| responses.dfy | Responses, Paging | backend/src/utils/response.utils.js, the page clamps of the list handlers |
| store.dfy | Store | the tables |
| identifier.dfy | JobIdentifier | `generateIdentificador` |
| password.dfy | PasswordPolicy | backend/src/utils/password.utils.js |
| roles.dfy | Roles | backend/src/middleware/roles.middleware.js |
| auth_middleware.dfy | AuthMiddleware | backend/src/middleware/auth.middleware.js |
| error_middleware.dfy | ErrorMiddleware | backend/src/middleware/error.middleware.js |
| auth_controller.dfy | AuthController | backend/src/controllers/auth.controller.js |
| evidence.dfy | Evidence | the evidence photo categories and their progress |
| trabajos_rules.dfy | JobRules | the pure parts of the job handlers |
| trabajos_controller.dfy | JobsController | backend/src/controllers/trabajos.controller.js |
| users_controller.dfy | UsersController | backend/src/controllers/users.controller.js |
| vehicles_controller.dfy | VehiclesController | backend/src/controllers/vehicles.controller.js |
| create_admin.dfy | CreateAdmin | backend/scripts/create-admin.js |
| date_utils.dfy | DateUtils | frontend/src/utils/dateUtils.js |

## Model

| member | source | states |
|---|---|---|
| Common.OrNull | backend/src/controllers/users.controller.js:128-129 | `x or null` keeps a value exactly when it is truthy; the empty string becomes NULL |
| Common.Pick | backend/src/controllers/users.controller.js:209-216 | a partial-update field is the value supplied, or else the current one |
| Common.Split | backend/src/controllers/trabajos.controller.js:30 | `split` always yields at least one field, and no field contains the separator |
| Common.SplitNoSeparator | backend/src/controllers/trabajos.controller.js:30 | a string without the separator splits into itself alone |
| Common.SplitAround | backend/src/controllers/trabajos.controller.js:30 | splitting distributes over one occurrence of the separator |
| Common.JoinEmptyHead | backend/src/controllers/trabajos.controller.js:30 | a join that starts with an empty field starts with the separator |
| Common.JoinHead | backend/src/controllers/trabajos.controller.js:30 | text in front of the first field comes first in the join |
| Common.JoinSplit | backend/src/controllers/trabajos.controller.js:30 | joining the fields of a split gives back the original string |
| Common.SplitJoin | backend/src/controllers/auth.controller.js:99 | splitting a join of separator-free fields gives back the fields (the `GROUP_CONCAT` role list read back) |
| Common.DigitChar | backend/src/controllers/trabajos.controller.js:33 | a digit below ten renders as a decimal digit character |
| Common.DigitValue | backend/src/controllers/trabajos.controller.js:31 | a digit character reads as a value below ten |
| Common.DigitRoundTrip | backend/src/controllers/trabajos.controller.js:31-33 | reading back a rendered digit gives the digit |
| Common.NatToString | backend/src/controllers/trabajos.controller.js:33 | `String(n)` is a non-empty run of digits without a leading zero |
| Common.IntToString | backend/src/controllers/trabajos.controller.js:33 | `String(i)` of a negative number is a minus sign then its magnitude |
| Common.NatToStringRoundTrip | backend/src/controllers/trabajos.controller.js:31-33 | the digits of `String(n)` read back as n |
| Common.NatToStringInjective | backend/src/controllers/trabajos.controller.js:33 | different numbers render differently |
| Common.LeadingZeroValue | backend/src/controllers/trabajos.controller.js:31 | a leading zero does not change the value of a digit string |
| Common.Repeat | backend/src/controllers/trabajos.controller.js:33 | n copies of one character |
| Common.PadStart | backend/src/controllers/trabajos.controller.js:33 | `padStart` reaches the width (or keeps a longer string), ends with the original and pads only with the fill character |
| Common.ZerosValue | backend/src/controllers/trabajos.controller.js:31-33 | zero padding does not change the value parsed back |
| Common.DigitPrefix | backend/src/controllers/trabajos.controller.js:31 | the longest run of leading digits: what `parseInt` reads |
| Common.DigitPrefixOfDigits | backend/src/controllers/trabajos.controller.js:31 | on an all-digit string the run is the whole string |
| Common.TrimStart | backend/scripts/create-admin.js:78 | the result is a suffix of the input that does not start with JavaScript whitespace (ASCII blanks, the Unicode space separators, the line and paragraph separators and the byte-order mark) |
| Common.TrimEnd | backend/scripts/create-admin.js:78 | the result is a prefix of the input that does not end with JavaScript whitespace |
| Common.Trim | backend/scripts/create-admin.js:78-82 | `trim()` leaves no whitespace at either end and never lengthens |
| Common.TrimStartDropsBlanks | backend/scripts/create-admin.js:78 | every character stripped from the front is whitespace |
| Common.TrimEndDropsBlanks | backend/scripts/create-admin.js:78 | every character stripped from the end is whitespace |
| Common.TrimKeepsSlice | backend/scripts/create-admin.js:78-82 | `trim()` returns the contiguous slice of its input that starts where the leading whitespace ends |
| Common.TrimDropsOnlyBlanks | backend/scripts/create-admin.js:78-82 | everything `trim()` drops, before and after that slice, is whitespace |
| Common.TrimEmptyIffBlank | backend/scripts/create-admin.js:78 | `trim()` is empty exactly when the input is all whitespace (so the default is taken) |
| Common.TrimStartEmptyIffBlank | backend/scripts/create-admin.js:78 | stripping leading whitespace empties exactly an all-whitespace string |
| Common.TrimEndKeepsNonBlank | backend/scripts/create-admin.js:78 | a string that starts with a non-blank keeps it after trimming the end |
| Common.ParseIntOfDigits | backend/src/controllers/trabajos.controller.js:31 | `parseInt` of a non-empty digit run is its value |
| Common.HexDigitValue | backend/src/config/constants.js:55-56 | a hexadecimal digit character reads as a value below sixteen, and a decimal digit keeps its decimal value |
| Common.HexPrefix | backend/src/config/constants.js:55-56 | the longest run of leading hexadecimal digits: what `parseInt` reads after a `0x` marker |
| Common.ParseIntHex | backend/src/config/constants.js:55-56 | `parseInt` without a radix reads `0x1A` as 26 |
| Common.ParseIntHexEmpty | backend/src/config/constants.js:55-56 | `parseInt` of a bare `0x` marker is NaN |
| Responses.Success | backend/src/utils/response.utils.js:11-15 | a success body with the status, message and data given; the `data` key only when there is data |
| Responses.Created | backend/src/utils/response.utils.js:20-21 | a success with status 201 |
| Responses.Error | backend/src/utils/response.utils.js:26-33 | a failure body; `errors` only when supplied; the development hint exactly on a 500 in development |
| Responses.Fail | backend/src/utils/response.utils.js:26-33 | an error response with a status other than 500 does not depend on the environment |
| Responses.NotFound | backend/src/utils/response.utils.js:38-39 | 404 with "<resource> no encontrado" |
| Responses.Unauthorized | backend/src/utils/response.utils.js:44-45 | 401 with the message given |
| Responses.Forbidden | backend/src/utils/response.utils.js:50-51 | 403 with the message given |
| Responses.ValidationError | backend/src/utils/response.utils.js:56-57 | 422 "Errores de validación" carrying the errors |
| Responses.CeilDiv | backend/src/utils/response.utils.js:70 | `Math.ceil(a / b)`: the least q with a <= q·b for a positive divisor, and the mirror for a negative one |
| Responses.Paginated | backend/src/utils/response.utils.js:62-75 | status 200, no message; total pages is the ceiling of total / limit; hasNext iff page·limit < total; hasPrev iff page > 1 |
| Responses.PaginatedHasNext | backend/src/utils/response.utils.js:70-71 | with a positive limit, hasNext holds exactly when the page is before the last one |
| Responses.SuccessFlags | backend/src/utils/response.utils.js:11-75 | the success helpers report success and the error helpers do not |
| Paging.ClampPage | backend/src/controllers/vehicles.controller.js:19 | the page is at least 1; a usable page query is kept, anything else becomes 1 |
| Paging.ClampLimitAsWritten | backend/src/controllers/vehicles.controller.js:20 | the limit as written: never above 100 and never 0, defaulting to 20, but with no lower bound |
| Paging.NegativeLimitPassesClamp | backend/src/controllers/vehicles.controller.js:20-21 | `limit=-5` passes the clamp unchanged and gives page 2 the offset -5 |
| Paging.ClampLimit | backend/src/controllers/vehicles.controller.js:20 | the corrected clamp: always in [1, 100]; keeps a query already in range; agrees with the written clamp wherever that one is positive |
| Paging.Offset | backend/src/controllers/vehicles.controller.js:21 | the offset is never negative for a valid page and limit, and is 0 on page 1 |
| Paging.ConsecutivePages | backend/src/controllers/trabajos.controller.js:101 | consecutive pages are adjacent: the next page's offset is this one's plus the limit |
| JobIdentifier.Identifier | backend/src/controllers/trabajos.controller.js:33 | an identifier carries its year's `TRB-<year>-` prefix |
| JobIdentifier.Generate | backend/src/controllers/trabajos.controller.js:21-34 | the first of a year is number 1; otherwise one past the number parsed from the last dash-separated segment; the year's prefix always |
| JobIdentifier.UnparsableLastSegment | backend/src/controllers/trabajos.controller.js:30-33 | an unparsable last segment makes the number NaN, rendered "0NaN" |
| JobIdentifier.SeqTextDigits | backend/src/controllers/trabajos.controller.js:33 | the padded number is at least four digits, has no dash and reads back as the number |
| JobIdentifier.IdentifierFields | backend/src/controllers/trabajos.controller.js:30-33 | an identifier splits on dashes into prefix, year and padded number |
| JobIdentifier.NoDashInDigits | backend/src/controllers/trabajos.controller.js:30 | digits contain no dash |
| JobIdentifier.ThreeFields | backend/src/controllers/trabajos.controller.js:30 | three dash-free fields joined by dashes split back into the three |
| JobIdentifier.LastSegmentRoundTrip | backend/src/controllers/trabajos.controller.js:30-31 | `split('-').pop()` of an identifier parses back to its number |
| JobIdentifier.IdentifierInjective | backend/src/controllers/trabajos.controller.js:33 | different (year, number) pairs give different identifiers |
| JobIdentifier.GenerateAfter | backend/src/controllers/trabajos.controller.js:28-33 | after number n comes number n + 1 |
| JobIdentifier.OfYear | backend/src/controllers/trabajos.controller.js:24-26 | the `LIKE 'TRB-<year>-%'` rows are exactly the identifiers with the year's prefix |
| JobIdentifier.LastOfYear | backend/src/controllers/trabajos.controller.js:24-27 | `ORDER BY id DESC LIMIT 1`: none exactly when the year has no identifier, else the latest of the year |
| JobIdentifier.GeneratePreservesSequenced | backend/src/controllers/trabajos.controller.js:21-34 | if the year's identifiers are numbers 1..k, the next is k + 1, is not yet in use, and the numbering stays consecutive |
| JobIdentifier.NextGenerated | backend/src/controllers/trabajos.controller.js:28-33 | with consecutive numbering the generated identifier is number k + 1 |
| JobIdentifier.SequencedAppend | backend/src/controllers/trabajos.controller.js:21-34 | appending number k + 1 keeps the numbering consecutive |
| JobIdentifier.NextIsFresh | backend/src/controllers/trabajos.controller.js:21-34 | number k + 1 is not among the identifiers already stored |
| JobIdentifier.AppendOfYear | backend/src/controllers/trabajos.controller.js:24-26 | a new identifier of the year joins the end of the year's list |
| JobIdentifier.OtherYearKeepsSequenced | backend/src/controllers/trabajos.controller.js:22-26 | identifiers of another year never disturb a year's numbering |
| JobIdentifier.SecondField | backend/src/controllers/trabajos.controller.js:26 | a string with a year's prefix has that year as its second dash-separated field |
| JobIdentifier.PrefixFixesYear | backend/src/controllers/trabajos.controller.js:26 | an identifier matches only its own year's pattern |
| PasswordPolicy.MessageInjective | backend/src/utils/password.utils.js:44-48 | different rules have different messages |
| PasswordPolicy.Filter | backend/src/utils/password.utils.js:43-49 | the selected rules are exactly those of the list that the test marks broken |
| PasswordPolicy.InOrderTail | backend/src/utils/password.utils.js:44-48 | a list in checking order stays in order without its head, and the head ranks first |
| PasswordPolicy.InOrderCons | backend/src/utils/password.utils.js:44-48 | a rule ranked before the whole of an ordered list can go in front of it |
| PasswordPolicy.FilterInOrder | backend/src/utils/password.utils.js:44-48 | selecting rules keeps the checking order |
| PasswordPolicy.FailedRules | backend/src/utils/password.utils.js:42-49 | at most five rules, in checking order, and a rule is listed exactly when the password breaks it |
| PasswordPolicy.SelectFromOrder | backend/src/utils/password.utils.js:44-48 | selecting from the five rules keeps exactly the selected ones, in order |
| PasswordPolicy.Messages | backend/src/utils/password.utils.js:44-48 | one message per rule, position by position |
| PasswordPolicy.MessagesMembers | backend/src/utils/password.utils.js:44-48 | a rule's message is listed exactly when the rule is |
| PasswordPolicy.EmptyIffNoRule | backend/src/utils/password.utils.js:49 | a list of rules is empty exactly when it contains none of the five |
| PasswordPolicy.AcceptableIffNoRuleBroken | backend/src/utils/password.utils.js:42-49 | a password is acceptable (8 characters, an upper, a lower, a digit and a special) exactly when it breaks no rule |
| PasswordPolicy.ValidatePasswordStrength | backend/src/utils/password.utils.js:42-50 | `valid` exactly when there are no errors; at most five errors |
| PasswordPolicy.StrengthAccepts | backend/src/utils/password.utils.js:42-50 | the check passes exactly for an acceptable password |
| PasswordPolicy.StrengthMessages | backend/src/utils/password.utils.js:42-50 | the messages listed are exactly those of the rules broken |
| PasswordPolicy.StrengthInOrder | backend/src/utils/password.utils.js:43-49 | the messages come in the order the rules are checked |
| PasswordPolicy.MissingPassword | backend/src/utils/password.utils.js:44-48 | a missing password gets four messages, all but the lower-case one, because the expressions test the text "undefined" |
| PasswordPolicy.AccentedLetterIsSpecial | backend/src/utils/password.utils.js:45-48 | an accented letter counts as a special character, not as an upper- or lower-case letter |
| Roles.RolesOf | backend/src/middleware/roles.middleware.js:24 | a user's role list, empty without a user or without roles |
| Roles.HasRoleMissing | backend/src/middleware/roles.middleware.js:63-65 | `hasRole` is false without a user or without roles |
| Roles.IsOperacionalIgnoresAdminRoles | backend/src/middleware/roles.middleware.js:75-78 | being operational means holding tecnico, enfermero or medico; adding administrador or gestor never changes it |
| Roles.RequireRole | backend/src/middleware/roles.middleware.js:18-35 | 403 "No autenticado" without a user; otherwise passes exactly when one allowed role is held, else 403 naming the allowed roles |
| Roles.RequireRoleMonotone | backend/src/middleware/roles.middleware.js:26 | holding more roles never turns a pass into a rejection |
| Roles.RequireAdmin | backend/src/middleware/roles.middleware.js:40 | passes exactly administrators |
| Roles.RequireAdminOrGestor | backend/src/middleware/roles.middleware.js:45 | passes exactly administrators and gestores |
| Roles.RequireAnyRole | backend/src/middleware/roles.middleware.js:50-55 | passes exactly a user holding at least one role, else 403 "Sin roles asignados" |
| AuthMiddleware.BearerToken | backend/src/middleware/auth.middleware.js:24 | `split(' ')[1]` of a "Bearer " header is the first space-free word after the prefix |
| AuthMiddleware.BearerTokenIsFirstWord | backend/src/middleware/auth.middleware.js:24 | the token is the word after "Bearer ", whatever follows it after a space |
| AuthMiddleware.EmptyTokenExamples | backend/src/middleware/auth.middleware.js:24-25 | "Bearer " alone, or followed by a second space, yields an empty token (the malformed case) |
| AuthMiddleware.RoleList | backend/src/middleware/auth.middleware.js:67 | no roles for a NULL or empty `GROUP_CONCAT`; otherwise a non-empty list that joins back to the column |
| AuthMiddleware.RoleListOfJoined | backend/src/middleware/auth.middleware.js:45-67 | the comma-joined role names read back as the same list |
| AuthMiddleware.Authenticate | backend/src/middleware/auth.middleware.js:16-74 | a missing or non-Bearer header gets 401; a user is attached only for a non-empty, verified access token whose user row exists, is active and is not deleted; every rejection is 401 |
| AuthMiddleware.AuthenticateRejections | backend/src/middleware/auth.middleware.js:29-59 | expired, invalid, wrong type, no user and inactive each get their own message, and a request that passes all the checks is accepted |
| AuthMiddleware.OptionalAuth | backend/src/middleware/auth.middleware.js:79-83 | without a header the request goes on anonymously; with one it is exactly `authenticate` |
| ErrorMiddleware.Capture | backend/src/middleware/error.middleware.js:48 | the lazy group `(.+?)'`: a non-empty run without line terminators or quotes, ending right before a quote |
| ErrorMiddleware.MatchFrom | backend/src/middleware/error.middleware.js:48 | the first marker from a position whose group matches; none exactly when no marker's group matches |
| ErrorMiddleware.FindKey | backend/src/middleware/error.middleware.js:48 | a key is found only after a `for key '` marker, and it is never empty |
| ErrorMiddleware.FindKeyNamed | backend/src/middleware/error.middleware.js:48 | the key reported in MySQL's duplicate-entry message is the one extracted |
| ErrorMiddleware.CaptureReaches | backend/src/middleware/error.middleware.js:48 | the lazy group stops at the first closing quote |
| ErrorMiddleware.NoEarlierMarker | backend/src/middleware/error.middleware.js:48 | text that cannot start a marker is skipped |
| ErrorMiddleware.ErrorHandler | backend/src/middleware/error.middleware.js:24-73 | the branches in order: multer 400, validation 422 with the errors, duplicate 409 naming the key (or "campo"), missing reference 400, else the error's status or 500 with the message hidden in production and the stack shown only in development |
| ErrorMiddleware.DuplicateEntryNamesKey | backend/src/middleware/error.middleware.js:47-53 | a duplicate-entry error answers 409 naming the key MySQL reports |
| ErrorMiddleware.NotFoundRoute | backend/src/middleware/error.middleware.js:14-19 | an unknown route answers 404 naming the method and URL |
| AuthController.EnvInt | backend/src/config/constants.js:55-56 | an unset variable is NaN; a set one is read by `parseInt` |
| AuthController.LockoutFrom | backend/src/config/constants.js:54-57 | each setting is the parsed variable when that is a non-zero number, and otherwise the default (five attempts, thirty minutes); neither setting is ever zero |
| AuthController.DefaultLockout | backend/src/config/constants.js:54-57 | without configuration an account locks after five failures in thirty minutes, and the 429 message names thirty minutes |
| AuthController.LockoutFromNumber | backend/src/config/constants.js:55 | `ACCOUNT_LOCKOUT_ATTEMPTS=10` sets ten attempts |
| AuthController.LockoutFromZero | backend/src/config/constants.js:55-56 | a variable that parses to zero is falsy and falls back to the default |
| AuthController.TruncatedAgent | backend/src/controllers/auth.controller.js:28 | an empty or missing user agent is NULL; otherwise its first 500 characters |
| AuthController.Attempt | backend/src/controllers/auth.controller.js:25-30 | the login attempt row records the username, the outcome, the truncated agent and `NOW()` |
| AuthController.RecentFailures | backend/src/controllers/auth.controller.js:34-39 | the count of failed attempts for the username inside the window, never more than the rows |
| AuthController.RecentFailuresAppend | backend/src/controllers/auth.controller.js:32-40 | a new attempt changes the count by one exactly when it is a failure of that user inside the window |
| AuthController.SuccessKeepsFailures | backend/src/controllers/auth.controller.js:96-97 | a successful login adds a row but clears no failure: the lockout count is unchanged |
| AuthController.OldFailuresExpire | backend/src/controllers/auth.controller.js:33-40 | failures older than the configured window count for nothing, so they lock the account only when the configured threshold is not positive (then every account is locked) |
| AuthController.OtherUsersDoNotCount | backend/src/controllers/auth.controller.js:37 | other usernames' failures never count |
| AuthController.GroupConcat | backend/src/controllers/auth.controller.js:66 | `GROUP_CONCAT` is NULL exactly for a user with no roles |
| AuthController.FindUser | backend/src/controllers/auth.controller.js:64-81 | the first row with the username, or none when no row has it |
| AuthController.LoginOutcome | backend/src/controllers/auth.controller.js:32-94 | access is granted exactly when the account is not locked under the configured lockout, the user exists, is active, is not deleted and the password matches |
| AuthController.LockedIgnoresCredentials | backend/src/controllers/auth.controller.js:53-61 | a locked account is refused whatever the password and whatever the user table holds |
| AuthController.UniformRejection | backend/src/controllers/auth.controller.js:75-94 | an unknown user, a deleted or inactive one and a wrong password all get the same answer |
| AuthController.Login | backend/src/controllers/auth.controller.js:46-130 | locked under the configured lockout: 429 with the message naming the configured window, and one failed attempt recorded; bad credentials: 401 and one failed attempt; granted: one successful attempt, a refresh token row holding only the hash, and the user's roles in the answer |
| AuthController.FindToken | backend/src/controllers/auth.controller.js:146-161 | the first token row with the hash whose owner exists; none when there is no such row |
| AuthController.RefreshOutcome | backend/src/controllers/auth.controller.js:138-165 | a token rotates only when it is given, known, not revoked, not expired and its owner is active and not deleted |
| AuthController.ValidAtExpiry | backend/src/controllers/auth.controller.js:164 | a token is accepted at the instant it expires and refused one millisecond later |
| AuthController.Rotated | backend/src/controllers/auth.controller.js:173-182 | rotation revokes the presented row, appends an unrevoked row for the same user with the new hash, and changes nothing else |
| AuthController.RefreshAtMostOnce | backend/src/controllers/auth.controller.js:163-182 | once exchanged, the same refresh token is refused as revoked at any later time |
| AuthController.Refresh | backend/src/controllers/auth.controller.js:135-195 | every refusal is 401 with its message and leaves the tables unchanged; success answers the owner's id, username and roles plus the new token, and the tables are rotated |
| AuthController.RevokeHash | backend/src/controllers/auth.controller.js:206-209 | every row with the hash is revoked at `NOW()`; the others are untouched |
| AuthController.Logout | backend/src/controllers/auth.controller.js:200-215 | always succeeds; a given token's rows are revoked and nothing else changes; without a token nothing changes |
| AuthController.LogoutBlocksRefresh | backend/src/controllers/auth.controller.js:163-209 | after logout the token can never be refreshed |
| AuthController.LogoutUnknownTokenNoChange | backend/src/controllers/auth.controller.js:206-209 | logging out an unknown token changes no row |
| DateUtils.TruncDiv | frontend/src/utils/dateUtils.js:62 | division truncating toward zero: the quotient is the whole number of divisor steps, toward zero, on either sign |
| DateUtils.DifferenceInMinutes | frontend/src/utils/dateUtils.js:62 | whole minutes between the instants, truncated toward zero; none when either date is invalid |
| DateUtils.Duration | frontend/src/utils/dateUtils.js:59-68 | under an hour (negative included) reads "<m> min"; an invalid count reads "NaNh NaNmin" |
| DateUtils.DurationBetween | frontend/src/utils/dateUtils.js:59-68 | less than a minute either way reads "0 min"; an invalid date reads "NaNh NaNmin" |
| DateUtils.DurationSplitsHours | frontend/src/utils/dateUtils.js:64-67 | from an hour up, the hours and the remaining minutes printed add back up to the count, and the remainder is left out when zero |
| DateUtils.DurationHoursReadBack | frontend/src/utils/dateUtils.js:64-67 | the text before the "h" reads back as the number of whole hours |
| DateUtils.ActiveAndOverdueExclusive | frontend/src/utils/dateUtils.js:42-54 | a job is never both in progress and overdue; once started, a job with a valid end is exactly one of the two |
| DateUtils.FormatDate | frontend/src/utils/dateUtils.js:7-12 | a missing, empty or unparsable date renders "—"; a valid one is formatted with the pattern |
| Evidence.ParseTipo | backend/src/controllers/trabajos.controller.js:453 | `IMAGEN_TIPOS_REQUERIDOS.includes(tipo)`: a category exactly when the text is one of the five names |
| Evidence.TipoNameCases | backend/src/config/constants.js:36 | every category's name is one of the five listed |
| Evidence.ParseTipoName | backend/src/config/constants.js:36 | every category's name parses back to it |
| Evidence.TipoNameInjective | backend/src/config/constants.js:36 | different categories have different names |
| Evidence.Uploaded | backend/src/controllers/trabajos.controller.js:385-390 | `tiposSubidos`: the categories of this vehicle's rows for this job, at most one per row |
| Evidence.UploadedMembers | backend/src/controllers/trabajos.controller.js:385-390 | a category counts as uploaded exactly when some row of this vehicle and job has it |
| Evidence.EveryTipoListed | backend/src/config/constants.js:36 | every category is among the required ones |
| Evidence.Absent | backend/src/controllers/trabajos.controller.js:391 | one category's share of the filter: empty exactly when it was uploaded |
| Evidence.Missing | backend/src/controllers/trabajos.controller.js:391 | `faltantes`: at most five |
| Evidence.InOrderAppend | backend/src/controllers/trabajos.controller.js:391 | adding a later-ranked category keeps the list in the required order |
| Evidence.MissingMembers | backend/src/controllers/trabajos.controller.js:391 | a category is missing exactly when it was not uploaded, and the missing ones are in the required order |
| Evidence.MissingHas | backend/src/controllers/trabajos.controller.js:391 | one category is missing exactly when it was not uploaded |
| Evidence.MissingInOrder | backend/src/controllers/trabajos.controller.js:391 | the missing categories are listed in the required order |
| Evidence.MissingEmptyIffComplete | backend/src/controllers/trabajos.controller.js:391-392 | nothing is missing exactly when all five categories were uploaded |
| Evidence.Names | backend/src/controllers/trabajos.controller.js:394 | the names of the categories, position by position |
| Evidence.FindImage | backend/src/controllers/trabajos.controller.js:476-479 | the first row of this vehicle, job and category; none when there is none |
| Evidence.Upsert | backend/src/controllers/trabajos.controller.js:481-499 | an existing photo of the key is overwritten in place; otherwise one row is added |
| Evidence.UpsertKeepsKeyed | backend/src/controllers/trabajos.controller.js:475-499 | the upsert keeps one photo per (vehicle, job, category); afterwards the key's photo carries the new URL and every other row is untouched |
| Evidence.ProgressOf | backend/src/controllers/trabajos.controller.js:502-520 | the progress record: total 5, completed is the rows counted, missing is the names in required order, complete exactly when nothing is missing |
| Evidence.ProgressComplete | backend/src/controllers/trabajos.controller.js:507-519 | the record says complete exactly when all five categories have a photo |
| Evidence.DistinctAppend | backend/src/controllers/trabajos.controller.js:506 | a new category keeps a list free of repeats |
| Evidence.UploadedDistinct | backend/src/controllers/trabajos.controller.js:502-506 | with one photo per key, no category is counted twice |
| Evidence.DistinctCard | backend/src/controllers/trabajos.controller.js:516 | a list without repeats has as many categories as entries |
| Evidence.AllTiposCard | backend/src/controllers/trabajos.controller.js:517 | there are five categories |
| Evidence.PartitionCard | backend/src/controllers/trabajos.controller.js:516-518 | uploaded and missing, disjoint and covering all categories, add up to five |
| Evidence.InOrderDistinct | backend/src/controllers/trabajos.controller.js:518 | a list in strict required order has no repeats |
| Evidence.ProgressAddsUp | backend/src/controllers/trabajos.controller.js:516-518 | with one photo per key, completed plus missing is the total |
| JobRules.Identifiers | backend/src/controllers/trabajos.controller.js:24-25 | the identifier column of every job row, in id order |
| JobRules.NextIdentifier | backend/src/controllers/trabajos.controller.js:21-34 | the identifier allocated from the table always carries the current year's prefix |
| JobRules.IdentifiersAppend | backend/src/controllers/trabajos.controller.js:222-224 | inserting a job appends its identifier to the column |
| JobRules.NextIdentifierSequenced | backend/src/controllers/trabajos.controller.js:218-224 | when the year's identifiers so far are 0001, 0002, …, the allocated one is unused and continues the run after the insert |
| JobRules.Max | backend/src/controllers/trabajos.controller.js:238 | the larger of two readings |
| JobRules.Ratchet | backend/src/controllers/trabajos.controller.js:425-428 | `kilometros_actuales < km` guard: the named vehicle's odometer becomes the larger of old and new; the service date is stamped exactly when it rose; nothing else changes |
| JobRules.RatchetAll | backend/src/controllers/trabajos.controller.js:418-430 | applied reading by reading, no odometer ever goes down |
| JobRules.RatchetReaches | backend/src/controllers/trabajos.controller.js:236-240 | every reading given for a vehicle is reached |
| JobRules.RatchetAttained | backend/src/controllers/trabajos.controller.js:424-429 | the final odometer is the old value or one of the readings given for that vehicle |
| JobRules.RatchetStamp | backend/src/controllers/trabajos.controller.js:425-428 | with a stamp, the service date changes exactly on the vehicles whose odometer rose; without one it never changes |
| JobRules.RatchetUntouched | backend/src/controllers/trabajos.controller.js:427 | a vehicle no reading names keeps its row |
| JobRules.Assignments | backend/src/controllers/trabajos.controller.js:229-234 | one row per entry, in order: the job, vehicle and driver given; a falsy start reading stored as NULL; no final reading |
| JobRules.StartReadings | backend/src/controllers/trabajos.controller.js:236-241 | the readings ratcheted on creation are exactly the entries with a truthy start reading |
| JobRules.Personnel | backend/src/controllers/trabajos.controller.js:245-250 | `INSERT IGNORE` leaves exactly one pair per listed user |
| JobRules.Unassign | backend/src/controllers/trabajos.controller.js:296 | removes exactly the job's assignment rows |
| JobRules.Unstaff | backend/src/controllers/trabajos.controller.js:307 | removes exactly the job's staff pairs |
| JobRules.ReplaceAssignments | backend/src/controllers/trabajos.controller.js:295-304 | after replacement the job has exactly the new rows and other jobs keep theirs |
| JobRules.ReplacePersonnel | backend/src/controllers/trabajos.controller.js:306-314 | after replacement exactly the listed users staff the job and other jobs keep their staff |
| JobRules.WritableEstado | backend/src/controllers/trabajos.controller.js:287-289 | only `programado` and `activo` are written, and neither is a finished state |
| JobRules.ApplyUpdate | backend/src/controllers/trabajos.controller.js:283-292 | an update never touches the identifier, the creator, the early-close reason or the deletion mark |
| JobRules.UpdateOnlySupplied | backend/src/controllers/trabajos.controller.js:283-289 | every field left out keeps its value and every field given takes it; an unwritable state is ignored |
| JobRules.UpdateNeverFinalizes | backend/src/controllers/trabajos.controller.js:287-289 | an update never puts an open job into a finished state |
| JobRules.UpdateSkipsDateCheck | backend/src/controllers/trabajos.controller.js:283-292 | unlike creation, an update stores an end date before the start |
| JobRules.AssignedVehicles | backend/src/controllers/trabajos.controller.js:383 | the job's distinct non-zero vehicle ids, each once |
| JobRules.FindKm | backend/src/controllers/trabajos.controller.js:401 | `find`: the first entry for the vehicle, or none |
| JobRules.FirstRefused | backend/src/controllers/trabajos.controller.js:384-405 | the first vehicle in order that fails the check, with every earlier one passing; none exactly when all pass |
| JobRules.FirstIncomplete | backend/src/controllers/trabajos.controller.js:384-397 | the first vehicle lacking a required photo, every earlier one complete; none exactly when all are complete |
| JobRules.FirstWithoutKm | backend/src/controllers/trabajos.controller.js:400-405 | the first vehicle without a truthy final reading, every earlier one having one; none exactly when all have one |
| JobRules.FirstIncompleteStep | backend/src/controllers/trabajos.controller.js:384-397 | the evidence scan checks the first vehicle, then moves on to the rest |
| JobRules.FirstWithoutKmStep | backend/src/controllers/trabajos.controller.js:400-405 | the reading scan checks the first vehicle, then moves on to the rest |
| JobRules.Readings | backend/src/controllers/trabajos.controller.js:418-428 | one reading per `vehiculos_km` entry, in order |
| JobRules.SetKmFin | backend/src/controllers/trabajos.controller.js:419-422 | the job's rows for the vehicle get the final reading; every other row is untouched |
| JobRules.SetKmFinAll | backend/src/controllers/trabajos.controller.js:418-430 | only the final-reading column ever changes |
| JobRules.SetKmFinAllUntouched | backend/src/controllers/trabajos.controller.js:420 | rows of other jobs, and of vehicles no reading names, keep their value |
| JobRules.SetKmFinAllRecords | backend/src/controllers/trabajos.controller.js:418-422 | a row of the job ends with the last reading given for its vehicle |
| JobRules.OrCurrent | backend/src/controllers/trabajos.controller.js:157-158 | an absent, unparsable or zero query value falls back to the current year or month |
| JobRules.NextMonthFollows | backend/src/controllers/trabajos.controller.js:162-164 | the upper bound is the next calendar month: December rolls over to January of the next year |
| JobsController.NewJob | backend/src/controllers/trabajos.controller.js:221-225 | a created job is scheduled (`programado`), live, and carries the allocated identifier |
| JobsController.AssignmentsAppend | backend/src/controllers/trabajos.controller.js:229-242 | one more `vehiculos` entry adds its row and, when its start reading is truthy, its reading |
| JobsController.Inserted | backend/src/controllers/trabajos.controller.js:220-253 | a committed creation appends exactly one job, scheduled and owned by the caller, and keeps the earlier jobs |
| JobsController.CreateAssigns | backend/src/controllers/trabajos.controller.js:229-234 | creation appends one assignment row per requested vehicle, all for the new job, keeping the earlier rows |
| JobsController.CreateStaffs | backend/src/controllers/trabajos.controller.js:236-250 | creation staffs the new job with exactly the listed users, only raises odometers and leaves the photos alone |
| JobsController.CreateTrabajo | backend/src/controllers/trabajos.controller.js:210-260 | an end not after the start gets 400 and changes nothing; an entry whose `vehicle_id` or `responsable_user_id` is undefined aborts the transaction and changes nothing; otherwise 201 with the new id and the committed tables |
| JobsController.InsertAssignments | backend/src/controllers/trabajos.controller.js:229-242 | the loop completes exactly when every entry is bound, and then leaves the rows appended and, on creation, the odometers ratcheted |
| JobsController.InsertPersonnel | backend/src/controllers/trabajos.controller.js:245-250 | the loop leaves the old pairs plus one per listed user |
| JobsController.CreateContinuesSequence | backend/src/controllers/trabajos.controller.js:218-224 | a created job is scheduled, its identifier is unused, and the year's numbering stays consecutive |
| JobsController.Updated | backend/src/controllers/trabajos.controller.js:280-315 | a committed update rewrites only the target job; the vehicle and staff lists change only when given; vehicles and photos are untouched |
| JobsController.UpdateTrabajo | backend/src/controllers/trabajos.controller.js:265-322 | 404 for a missing or deleted job and 400 for a finished one, both changing nothing; an unbound vehicle entry aborts with nothing changed; otherwise the committed update |
| JobsController.UpdateKeepsJobOpen | backend/src/controllers/trabajos.controller.js:273-292 | an accepted update leaves the job live and unfinished and every identifier as it was |
| JobsController.DeleteTrabajo | backend/src/controllers/trabajos.controller.js:327-344 | 404 for a missing job and 400 for an active one, both changing nothing; otherwise only the deletion mark is set, at `NOW()`, and the job is no longer live |
| JobsController.TrabajoAccess | backend/src/controllers/trabajos.controller.js:190-205 | the detail succeeds exactly for a live job that an operational caller is staffed on (others always see it); 404 and 403 otherwise |
| JobsController.FinalizeAccepted | backend/src/controllers/trabajos.controller.js:361-405 | passing the checks means: live and unfinished, an operational caller is a driver of the job, an early close has a reason, and every assigned vehicle has all five photos and a truthy final reading |
| JobsController.FinalizeTerminalRefused | backend/src/controllers/trabajos.controller.js:366-373 | a finished job is refused as already finished; an operational caller who is not a driver is refused before that |
| JobsController.ZeroKmRefused | backend/src/controllers/trabajos.controller.js:401-404 | a final reading of 0 for an assigned vehicle blocks the close |
| JobsController.Finalized | backend/src/controllers/trabajos.controller.js:407-431 | the job becomes finished, early exactly when closed before its end date, with the reason stored or NULL; other jobs, staff and photos are untouched |
| JobsController.FinalizeOnce | backend/src/controllers/trabajos.controller.js:371-373 | a job closes at most once: any later attempt is refused |
| JobsController.CheckEvidence | backend/src/controllers/trabajos.controller.js:384-397 | the loop returns the first vehicle lacking a photo, or none |
| JobsController.CheckKm | backend/src/controllers/trabajos.controller.js:400-405 | the loop returns the first vehicle without a final reading, or none |
| JobsController.FinalizeTrabajo | backend/src/controllers/trabajos.controller.js:350-438 | a refused check answers and changes nothing; an unbound reading aborts with nothing changed; otherwise 200 and the tables as `Finalized` gives them |
| JobsController.FinalizeChecks | backend/src/controllers/trabajos.controller.js:354-405 | the step-by-step checks reach the same verdict as the rejection function, and passing them implies the job is live |
| JobsController.WriteReadings | backend/src/controllers/trabajos.controller.js:418-430 | the loop completes exactly when every entry is bound; then the final readings are recorded and the odometers ratcheted with today's service date |
| JobsController.EvidenceRejection | backend/src/controllers/trabajos.controller.js:450-473 | an upload is accepted exactly with a vehicle id, a known category, a live unfinished job, the vehicle assigned to it and a file; refusals are 400 or 404 |
| JobsController.UploadEvidencia | backend/src/controllers/trabajos.controller.js:444-525 | a refusal answers and changes nothing; an accepted upload changes only the photo table (the upsert) and reports the photo id and the progress |
| JobsController.StoreEvidence | backend/src/controllers/trabajos.controller.js:475-521 | the existing photo's id or the new row's id, the photo table upserted, and the progress read after the write |
| JobsController.ReuploadOverwrites | backend/src/controllers/trabajos.controller.js:482-491 | re-uploading a category does not grow the table, and the key's photo is the new one |
| UsersController.MatchingRoleIds | backend/src/controllers/users.controller.js:135-138 | the `WHERE nombre IN (...)` lookup returns no more ids than there are roles, in table order |
| UsersController.MatchingRoleIdsMembers | backend/src/controllers/users.controller.js:135-138 | an id is returned exactly when it is a role whose name was asked for |
| UsersController.Grants | backend/src/controllers/users.controller.js:139-144 | one `user_roles` row per looked-up role, for the user, granted by the caller |
| UsersController.Unlink | backend/src/controllers/users.controller.js:238 | `DELETE FROM user_roles WHERE user_id = ?` keeps exactly the other users' rows |
| UsersController.RoleNamesAppend | backend/src/controllers/users.controller.js:150-159 | the joined role list of two row blocks is the list of the first followed by that of the second |
| UsersController.RoleNamesNone | backend/src/controllers/users.controller.js:150-159 | a user without rows has no role names (`roles: []`) |
| UsersController.GrantedNames | backend/src/controllers/users.controller.js:139-144 | the granted rows list a name exactly when one of the granted ids is a role of that name |
| UsersController.RolesReplaced | backend/src/controllers/users.controller.js:236-251 | after unlinking and granting, the user's role names are exactly the requested names that exist as roles |
| UsersController.MatchingNamedBy | backend/src/controllers/users.controller.js:135-138 | the looked-up ids name exactly the requested names that exist |
| UsersController.RoleNamesAppendOther | backend/src/controllers/users.controller.js:139-144 | rows added for other users do not change a user's role list |
| UsersController.RoleNamesUnlinkOther | backend/src/controllers/users.controller.js:238 | unlinking one user does not change another user's role list |
| UsersController.NoNamesNoIds | backend/src/controllers/users.controller.js:134 | an empty name list looks up nothing, so skipping the query when `roles` is empty changes nothing |
| UsersController.GrantRoles | backend/src/controllers/users.controller.js:139-144 | the insert loop appends exactly the granted rows, in lookup order |
| UsersController.InsertRoles | backend/src/controllers/users.controller.js:134-145 | the lookup and insert loop append one row per existing requested role, and nothing for an empty list |
| UsersController.PasswordItems | backend/src/controllers/users.controller.js:113 | one `{ field: 'password', message }` item per strength error, in order |
| UsersController.NewUser | backend/src/controllers/users.controller.js:124-130 | the new row is active and live, keeps the username and DNI, stores the bcrypt hash, and stores an empty e-mail as NULL |
| UsersController.CreateUser | backend/src/controllers/users.controller.js:106-169 | a weak password gets 422 with the itemised errors and a live username or DNI clash gets 409, both changing nothing; otherwise 201 with the new id, one user appended and the existing requested roles granted by the caller |
| UsersController.CreateUserKeepsUnique | backend/src/controllers/users.controller.js:115-145 | creation keeps live usernames and DNIs unique, and the new user holds exactly the requested roles that exist |
| UsersController.UnlinkAbsent | backend/src/controllers/users.controller.js:238 | unlinking a user with no rows changes nothing |
| UsersController.PlainItems | backend/src/controllers/users.controller.js:223 | the thrown weak-password errors keep their messages in order, without a field |
| UsersController.PickOrNull | backend/src/controllers/users.controller.js:211-216 | an absent key keeps the stored value; a given empty string is stored as NULL and any other value as given |
| UsersController.Patched | backend/src/controllers/users.controller.js:209-226 | the username and deletion mark never change; only an administrator changes `activo` and the password, which is stored hashed |
| UsersController.PatchRow | backend/src/controllers/users.controller.js:209-226 | the field updates succeed exactly unless an administrator sends a weak password, and then give the patched row |
| UsersController.UserUpdated | backend/src/controllers/users.controller.js:207-252 | only the target user row changes and stays live; roles, tokens and login attempts are untouched; links change only when `roles` is sent |
| UsersController.UpdateUser | backend/src/controllers/users.controller.js:175-273 | 404 for a missing user; 403 when a gestor targets an administrator or grants the administrator role; a weak password from an administrator is rejected through the error handler; all of these change nothing; otherwise 200 and the patched tables |
| UsersController.WeakPasswordRendered | backend/src/controllers/users.controller.js:223 | the thrown weak-password error reaches the client as a 422 with its messages |
| UsersController.UpdateRoleSafety | backend/src/controllers/users.controller.js:191-205 | an update never changes another user's roles, and an update a gestor is allowed to make never leaves its target an administrator |
| UsersController.UpdateReplacesRoles | backend/src/controllers/users.controller.js:236-251 | sending `roles` leaves the target holding exactly the requested names that exist as roles |
| UsersController.Revoked | backend/src/controllers/users.controller.js:298-302 | every token of the user ends up revoked; the other tokens and already revoked ones are unchanged; no hash or owner changes |
| UsersController.DeleteUser | backend/src/controllers/users.controller.js:278-309 | deleting oneself gets 400 and a missing user 404, both changing nothing; otherwise the user is soft-deleted and deactivated at `NOW()` and their tokens revoked |
| UsersController.DeletedUserLockedOut | backend/src/controllers/users.controller.js:292-303 | after deletion the user can neither log in nor rotate a refresh token of theirs |
| UsersController.CreateRole | backend/src/controllers/users.controller.js:326-342 | an existing name gets 409 and changes nothing; otherwise 201 with the new id and one role appended, its empty description stored as NULL |
| UsersController.CreateRoleKeepsNamesUnique | backend/src/controllers/users.controller.js:330-336 | creating a role keeps role names unique |
| VehiclesController.UpperChar | backend/src/controllers/vehicles.controller.js:96 | `toUpperCase` on one character: ASCII lower-case letters move to upper case, every other character is kept |
| VehiclesController.Upper | backend/src/controllers/vehicles.controller.js:96 | `toUpperCase` keeps the length and maps each character |
| VehiclesController.UpperIdempotent | backend/src/controllers/vehicles.controller.js:96 | upper-casing a stored plate again changes nothing |
| VehiclesController.NewVehicle | backend/src/controllers/vehicles.controller.js:85-98 | the new row stores the plate upper-cased, is live, and starts at the given reading or 0 |
| VehiclesController.CreateVehicle | backend/src/controllers/vehicles.controller.js:83-105 | a plate already used by a live vehicle gets 409 and changes nothing; otherwise 201 with the new id and one vehicle appended |
| VehiclesController.CreateVehicleKeepsPlatesUnique | backend/src/controllers/vehicles.controller.js:88-98 | creation keeps the plates of live vehicles unique under the case-insensitive comparison |
| VehiclesController.FieldCount | backend/src/controllers/vehicles.controller.js:120-128 | no field is set exactly when none of the four keys is given |
| VehiclesController.VehiclePatched | backend/src/controllers/vehicles.controller.js:123-126 | plate and deletion mark never change; each given key replaces its column, dates given empty become NULL; absent keys keep their values |
| VehiclesController.UpdateVehicle | backend/src/controllers/vehicles.controller.js:110-137 | 404 for a missing vehicle and 400 when no field is given, both changing nothing; otherwise 200 and only that vehicle patched |
| VehiclesController.UpdateCanLowerOdometer | backend/src/controllers/vehicles.controller.js:124 | unlike the job handlers' ratchet, a direct update may lower the odometer |
| VehiclesController.DeleteVehicle | backend/src/controllers/vehicles.controller.js:142-166 | 404 for a missing vehicle and 400 while a live scheduled or active job uses it, both changing nothing; otherwise only its deletion mark is set, at `NOW()` |
| VehiclesController.DeleteVehicleKeepsActiveFleet | backend/src/controllers/vehicles.controller.js:150-161 | an accepted delete keeps every vehicle of an open job live and keeps plates unique |
| VehiclesController.UploadImages | backend/src/controllers/vehicles.controller.js:171-207 | 404 for a missing vehicle, 400 for an unknown category or a missing file, all changing nothing; otherwise 201 and one photo row appended |
| VehiclesController.UploadCountsAsEvidence | backend/src/controllers/vehicles.controller.js:190-194 | a photo uploaded here with a job id counts towards that job's evidence |
| VehiclesController.UploadCanDuplicateEvidence | backend/src/controllers/vehicles.controller.js:190-194 | this plain insert, unlike the evidence upsert, can leave two photos for one vehicle, job and category |
| VehiclesController.ImageIds | backend/src/controllers/vehicles.controller.js:217-225 | exactly the vehicle's photos, restricted to the job when one is given, newest first |
| VehiclesController.GetVehicleImages | backend/src/controllers/vehicles.controller.js:212-232 | always 200 with the selected photos |
| VehiclesController.JobFilterNarrows | backend/src/controllers/vehicles.controller.js:220-223 | filtering by job never adds photos |
| CreateAdmin.AdminMessages | backend/scripts/create-admin.js:62-70 | one script message per broken rule, in the same order |
| CreateAdmin.AdminErrors | backend/scripts/create-admin.js:62-70 | at most five messages, one per rule |
| CreateAdmin.AdminErrorsEmptyIff | backend/scripts/create-admin.js:62-70 | the script accepts a password exactly when it meets all five rules, and exactly when the API's own strength check accepts it |
| CreateAdmin.InOrderUnique | backend/scripts/create-admin.js:63-68 | two rule lists in check order with the same members are equal, so the messages are determined by the broken rules |
| CreateAdmin.ValidatePassword | backend/scripts/create-admin.js:62-70 | the loop of five pushes returns exactly the messages of the broken rules, in check order |
| CreateAdmin.Key | backend/scripts/create-admin.js:46-56 | DEL drops the last character of a non-empty buffer and leaves an empty one alone; any other chunk is appended whole |
| CreateAdmin.DelUndoesKeystroke | backend/scripts/create-admin.js:46-56 | DEL right after a typed character restores the buffer; DEL on an empty buffer does nothing |
| CreateAdmin.PasswordReader.constructor | backend/scripts/create-admin.js:32 | the prompt starts reading with an empty buffer |
| CreateAdmin.PasswordReader.OnData | backend/scripts/create-admin.js:37-57 | Enter, Return or Ctrl-D resolve with the buffer as typed; Ctrl-C exits; anything else edits the buffer and keeps reading |
| CreateAdmin.ReadFrom | backend/scripts/create-admin.js:29-60 | a prompt that resolves does so at a later chunk that ends the line |
| CreateAdmin.AskPassword | backend/scripts/create-admin.js:29-60 | feeding the chunks to the listener one at a time gives the prompt's outcome |
| CreateAdmin.Keystrokes | backend/scripts/create-admin.js:37 | typed text arrives as one chunk per character |
| CreateAdmin.TypedTextEntered | backend/scripts/create-admin.js:37-57 | text without control characters followed by Return is read back exactly |
| CreateAdmin.PromptPassword | backend/scripts/create-admin.js:84-100 | the ask, validate and confirm loop returns what the prompt sequence defines |
| CreateAdmin.PromptSound | backend/scripts/create-admin.js:84-100 | a password the loop accepts meets every rule and was typed the same way twice in a row |
| CreateAdmin.PromptComplete | backend/scripts/create-admin.js:84-100 | an acceptable password typed twice in a row is accepted at that point |
| CreateAdmin.AdminUsername | backend/scripts/create-admin.js:78 | the username is the trimmed answer, or the suggested default when that is empty; never empty |
| CreateAdmin.BlankUsernameDefaults | backend/scripts/create-admin.js:78 | a blank answer gives the suggested default username |
| CreateAdmin.OptionalAnswer | backend/scripts/create-admin.js:82 | the e-mail is NULL exactly when the trimmed answer is empty, and otherwise the trimmed answer |
| CreateAdmin.FirstRoleNamed | backend/scripts/create-admin.js:144-151 | the first role named `administrador`, or none when no role has that name |
| CreateAdmin.CreateAdministrator | backend/scripts/create-admin.js:129-171 | a username or DNI held by any user, deleted or not, stops the script with nothing written; a missing administrator role also; otherwise one user and one role link are added |
| CreateAdmin.CreatedAdminIsAdministrator | backend/scripts/create-admin.js:153-165 | the created user holds the administrator role, and live logins stay unique |
| Store.Second | backend/src/controllers/trabajos.controller.js:339 | `NOW()` is the current instant truncated to a whole second |
| Store.Fleet.constructor | backend/src/controllers/trabajos.controller.js:221-226 | the fleet tables start empty, so ids start at 1 |
| Store.Accounts.constructor | backend/src/controllers/users.controller.js:124-131 | the account tables start empty, so ids start at 1 |
| Store.RoleNames | backend/src/controllers/users.controller.js:150-163 | the joined role list of a user has no more names than there are link rows |
| Store.RoleNamesMembers | backend/src/controllers/users.controller.js:150-163 | a name is in a user's role list exactly when one of the user's link rows points at an existing role of that name |

## Left out

- Request parsing: route ids and numeric body fields are integers already (`parseInt` giving NaN is `None` only where the handler tests it); express-validator rules in the route files are not modelled.
- JSON `null` and a missing key are both `None`. For the `x || null` fields either one stores NULL, as the handlers do; for the plain fields of the partial updates an explicit `null` is read as an absent key (see the three lines below).
- Database errors other than an `undefined` bind parameter (connection loss, foreign-key and unique-key violations raised by the schema) are not modelled; a transaction is atomic and commits whenever the handler reaches its end.
- The schema is not part of this model: a new job is assumed to start `programado` and a new user `activo`, as the handlers never set them.
- Text comparison in SQL uses exact equality for usernames, DNIs and role names; plates are compared by ASCII upper-casing, standing in for MySQL's case-insensitive collation. Non-ASCII case mapping of `toUpperCase` is not modelled.
- String lengths count Dafny characters, not the UTF-16 units JavaScript counts (the 500-character user-agent cut, the 8-character password minimum).
- Row order of a `SELECT` without `ORDER BY` is table order; ties in `ORDER BY created_at DESC` are broken by id.
- The rows handlers return after a write (`SELECT *`, the joined views) are reduced to the id of the written row.
- Read-only listings are not modelled beyond their arithmetic: `listTrabajos`, `getTrabajoCompleto`, `calendar` (only its month range), `misTrab`, `listUsers`, `getUser`, `listRoles`, `listVehicles`, `getVehicle`; likewise the auth handler `me`.
- bcrypt, SHA-256, JWT signing and verification and the random token source are function parameters; the clock is a `Store.Clock` parameter.
- Console output of the create-admin script (banners, the `*` echo and redraw after DEL), its readline questions other than the username and e-mail, the database URL and environment configuration, and `process.exit` codes are not modelled; the script's outcomes are the three `CreateAdmin.AdminResult` values.
- File handling (multer, image compression, deleting a stored file) is not part of this model: an upload arrives as the stored URL or `None`.
- Logging in the error handler is left out; `NODE_ENV` is a parameter.
- Concurrent requests are not modelled; every request runs alone, so races between identifier allocations are out of scope.
- UsersController.UpdateUser: requires the caller's role list to be present; `authenticate` always sets it (an empty list when the user has no roles).
- JobsController.UpdateTrabajo: an explicit JSON `null` on a plain field (`nombre`, `tipo`, `fecha_inicio`, `fecha_fin`, `estado`) is modelled as an absent key and keeps the stored value, while the handler writes NULL; whether the column accepts NULL depends on the schema, which is not part of this model.
- VehiclesController.UpdateVehicle: an explicit JSON `null` on a plain field (`alias`, `kilometros_actuales`) is modelled as an absent key and keeps the stored value, while the handler writes NULL; whether the column accepts NULL depends on the schema, which is not part of this model.
- UsersController.UpdateUser: an explicit JSON `null` on a plain field (`nombre`, `apellidos`, `dni`) is modelled as an absent key and keeps the stored value, while the handler writes NULL; whether the column accepts NULL depends on the schema, which is not part of this model.

## Findings

| source | as written | input that shows it | evidently intended | confidence | as-written member | corrected member |
|---|---|---|---|---|---|---|
| backend/src/controllers/vehicles.controller.js:20 | `Math.min(parseInt(limit) or 20, 100)` bounds the page size above only (the same clamp is at backend/src/controllers/users.controller.js:21-24 and backend/src/controllers/trabajos.controller.js:100) | `?limit=-5&page=2` gives limit -5 and offset -5 | a page size between 1 and 100 | not executed | Paging.NegativeLimitPassesClamp | Paging.ClampLimit |
