# Resume management service — a Dafny model

This project models the core of a resume-management REST backend.

Users sign up with a password or with Google. Each sign-in opens a row in a sessions
table. A request passes the token gate only while its session row is active and
unexpired. An authenticated user keeps seven kinds of building blocks:
- personal information (one active record per user);
- professional summaries;
- work experience;
- projects;
- skills;
- education;
- certifications.

The user composes these into resumes that point at the blocks by id.

The model has these parts:
- **Tables.** They are `seq<Row>` values in insertion order. Row `i` has id `i + 1`, as SERIAL ids give. Rows are deleted only softly, by clearing `is_active`.
- **Queries.** Each SQL statement is a function:
  - `UpdateWhere` for `UPDATE … WHERE`, pointwise;
  - `ActiveOf` and `ActiveWithIds` for the filters;
  - `OrderBy` for `ORDER BY`, a stable insertion sort proved sorted and a permutation.
- **Request handlers.** They are methods of two classes:
  - `ResumeController.ResumeStore` owns the seven block tables and the resumes table;
  - `AuthController.AuthStore` owns the users and sessions tables.

  Each state-changing method has a `modifies` clause; every handler states its answer and the new state for every branch, and keeps the store invariant.
- **Request-body schemas.** They are predicates with their defaults, written as functions with named results.

Modules, each in its own file:
- `Common` (common.dfy): `Option`, JavaScript truthiness and `||`, `includes`, number rendering.
- `SqlUtils` (sql_utils.dfy): `quote_ident` and `quote_literal`.
- `Health` (health.dfy): `healthResponse` and the `/health` route.
- `AuthSchema` (auth_schema.dfy), `ResumeSchema` (resume_schema.dfy): the validation schemas.
- `Sorting` (sorting.dfy), `Rows` (rows.dfy): the query semantics.
- `ResumeController` (resume_controller.dfy): the resume handlers.
- `AuthController` (auth_controller.dfy), `AuthMiddleware` (auth_middleware.dfy): authentication.

Parameters of the model:
- The clock is `now`.
- `JWT_EXPIRES_IN` is `minutes`.
- `jwt.sign` is `sign`. `jwt.verify` is `verify`, an oracle that returns or throws one of the errors the middleware tells apart.
- `bcrypt.hash` is `hash` and `bcrypt.compare` is `compare`.
- Joi's `.email()` and `.uri()` grammars are `Lib` / `isEmail`.
- Whether the work-experience object rule still runs on the forked update schema is `objectRule`.

Where the code and its informal description differ, the model follows the code:
- **Defaults survive `fork`.** The update schemas make every key optional, but the `default(...)` of a key stays. So:
  - a resume update always writes the title (default `Default Resume`) and all six id lists (default `[]`);
  - a work-experience update always writes `is_current` (default `false`);
  - a personal-information update always writes `social_media_urls` (default `{}`).

  The resume and personal-information handlers therefore never reach their "No valid fields to update" branch (`PersonalInfoUpdateNotEmpty`, `ResumeUpdateResets`).
- **Validation comes first.** The collection update handlers validate the body before they check ownership, so an invalid body for someone else's row gets 400, not 404.
- **Updates check keys alone.** An update is validated key by key, never against the stored row. `WorkExperienceUpdateBreaksDates` shows the effect.
- **Expansion does not filter by user.** `getResumeById` expands every referenced active row without filtering by user. Only the store invariant (references are owned when written) keeps other users' rows out of the answer.

## Model

| member | source | states |
|---|---|---|
| SqlUtils.QuoteIdent | src/utils/sql_utils.js:6-8 | the result is `"`, the identifier with every `"` doubled, `"`; its length is the input's plus the number of `"` plus two |
| SqlUtils.QuoteLiteral | src/utils/sql_utils.js:10-12 | the same with `'` |
| SqlUtils.QuoteRoundTrip | src/utils/sql_utils.js:6-12 | stripping the outer quotes and undoubling gives the input back |
| SqlUtils.QuoteInjective | src/utils/sql_utils.js:6-12 | distinct inputs quote to distinct outputs |
| SqlUtils.QuoteIdentSound | src/utils/sql_utils.js:6-8 | inside the outer quotes `"` occurs only in adjacent pairs, and the identifier is recovered |
| SqlUtils.QuoteLiteralSound | src/utils/sql_utils.js:10-12 | inside the outer quotes `'` occurs only in adjacent pairs, and the literal is recovered |
| Health.HealthResponse | index.js:25-40 | `healthy` and 200 iff connected, else `unhealthy` and 503; with an error the message is "Health check failed" and `error` is set; otherwise the connected/disconnected message and no `error` |
| Health.HealthRoute | index.js:42-51 | a probe that throws answers 503 with the failure message and the thrown text; 200 only when the probe says connected |
| AuthSchema.ValidateRegister | src/schemas/auth.schema.js:4-47 | accepted iff the username is 3..30 alphanumerics, the name 2..100 characters, the email accepted, the password 6..128 characters, and the role absent or `USER`; the value carries the inputs, with the role `USER` |
| AuthSchema.ValidateLogin | src/schemas/auth.schema.js:50-63 | accepted iff the email is accepted and a non-empty password is given; no length bound on the password |
| AuthSchema.ValidateLogout | src/schemas/auth.schema.js:66-72 | accepted iff a non-empty token is given |
| AuthSchema.RegisterRoleIsUser | src/schemas/auth.schema.js:41-46 | every accepted registration has role `USER` |
| AuthSchema.LoginAcceptsShortPassword | src/schemas/auth.schema.js:32-62 | a one-character password passes login validation but fails registration |
| ResumeSchema.ValidatePersonalInfo | src/schemas/resume.schema.js:4-58 | accepted iff the five required keys are present and every key rule holds; the columns are the six keys, each holding the body's value (`GivenInfo`), with a valid phone and email and `social_media_urls` defaulting to `{}` |
| ResumeSchema.ValidatePersonalInfoUpdate | src/schemas/resume.schema.js:379 | accepted iff every present key passes; the fields are the six schema keys in order, each defined exactly when the body gives it and then holding its value, except that `social_media_urls` is always defined (`{}` when absent) |
| ResumeSchema.ValidateCreate | src/schemas/resume.schema.js:61-293 | accepted iff the create schema of the body's kind accepts it; the columns are exactly that schema's keys, a given key holds the body's value, an absent one NULL (`is_current`: `false`); they have that kind's shape (required keys, date order, current-job rule, skill level) |
| ResumeSchema.ValidateUpdate | src/schemas/resume.schema.js:380-385 | accepted iff every present key passes the create rule for that key (plus the object rule when `objectRule`); the fields are the schema's keys in order, each defined exactly when the body gives it and then holding its value, except `is_current`, always defined (`false` when absent); no defined field is `null` |
| ResumeSchema.CreateImpliesUpdate | src/schemas/resume.schema.js:379-386 | every body the create schema accepts is also accepted by the update schema |
| ResumeSchema.EmptyUpdateAccepted | src/schemas/resume.schema.js:119-141 | `{}` passes the summary and project update schemas; on work experience it fails exactly when the object rule runs, since the default `is_current=false` with no end date breaks it |
| ResumeSchema.ValidateResume | src/schemas/resume.schema.js:296-377 | accepted iff `personal_information_id` is present and every key passes; the id is positive, the title 2..255 characters (default `Default Resume`), every id list positive; the title is the body's when given, the id is the body's, and each list is the body's, or `[]` when absent |
| ResumeSchema.ValidateResumeUpdate | src/schemas/resume.schema.js:386 | accepted iff every present key passes; the title and all six lists are always defined, each the body's value when given, else `Default Resume` or `[]`; the personal-information id is defined iff given, and then the body's |
| ResumeSchema.WorkExperienceCurrentRule | src/schemas/resume.schema.js:129-141 | creation fails when a current job has an end date, or when a job that is not current has none |
| ResumeSchema.DateBounds | src/schemas/resume.schema.js:102-117 | work experience, projects and education refuse a start or end date in the future, and an end date before the start |
| ResumeSchema.SkillLevel | src/schemas/resume.schema.js:198-207 | a skill is accepted iff its level is absent or an integer 1..5 |
| ResumeSchema.PhoneShape | src/schemas/resume.schema.js:33-34 | an accepted phone number is an optional `+`, a digit 1..9, then at most 15 digits |
| ResumeSchema.PhoneComplete | src/schemas/resume.schema.js:33-34 | every string of that shape is accepted |
| ResumeSchema.PhoneExamples | src/schemas/resume.schema.js:33-34 | samples accepted and refused by the pattern |
| ResumeSchema.ResumeDefaults | src/schemas/resume.schema.js:296-370 | a body holding only the personal-information id gets the default title and six empty lists |
| ResumeSchema.ResumeIdsPositive | src/schemas/resume.schema.js:306-316 | a zero, negative or fractional personal-information id is refused |
| Sorting.SortSorted | src/controllers/resume.controller.js:296 | the sort puts its input in the order of any total preorder |
| Sorting.SortMembers | src/controllers/resume.controller.js:296 | the sort keeps exactly the input's elements |
| Rows.OwnsByIndex | src/controllers/resume.controller.js:22-26 | `checkResourceOwnership`: a row with the id exists, belongs to the user and is active, which is row `id - 1` |
| Rows.OwnerUnique | src/controllers/resume.controller.js:22-26 | an id is owned by at most one user |
| Rows.MatchingRows | src/controllers/resume.controller.js:29-39 | the rows the batch query returns: those with the id in the list, of the user, active |
| Rows.MatchingCount | src/controllers/resume.controller.js:29-39 | the number of rows returned equals the number of distinct owned ids in the list |
| Rows.DistinctCard | src/controllers/resume.controller.js:37 | a list has as many distinct values as elements iff it has no duplicates |
| Rows.ValidateIdsMeaning | src/controllers/resume.controller.js:29-39 | `validateResourceIds` holds iff the list has no duplicates and every id is owned by the user; the empty list passes |
| Rows.RepeatedIdRefused | src/controllers/resume.controller.js:37 | a list naming the same owned id twice is refused |
| Rows.ActiveOf | src/controllers/resume.controller.js:105-108 | `WHERE user_id = $1 AND is_active = true`: exactly the user's active rows; empty iff there are none |
| Rows.ActiveWithIds | src/controllers/resume.controller.js:1437-1507 | `WHERE id = ANY($1) AND is_active = true`: exactly the active rows with a listed id |
| Rows.ComparatorTotal | src/controllers/resume.controller.js:473 | each `ORDER BY` of the handlers is a total preorder |
| Rows.OrderBy | src/controllers/resume.controller.js:473 | the ordered selection is a permutation of it and is sorted by the comparator |
| Rows.Listing | src/controllers/resume.controller.js:289-313 | a listing holds exactly the user's active rows, in the route's order |
| Rows.Expand | src/controllers/resume.controller.js:1437-1507 | an expanded section holds exactly the active rows with a listed id, in the section's order, and is empty for an empty list |
| Rows.ActiveWithIdsDistinct | src/controllers/resume.controller.js:1437-1507 | no row appears twice in an expanded section |
| ResumeController.Defined | src/controllers/resume.controller.js:344-350 | the SET list holds exactly the fields whose value is defined |
| ResumeController.CollectDefined | src/controllers/resume.controller.js:344-350 | the `forEach` loop builds that list, and the next placeholder number is its length plus one |
| ResumeController.Patch | src/controllers/resume.controller.js:359-365 | after the SET, the keys are the old keys plus the written ones, and every unwritten column is unchanged |
| ResumeController.PatchAt | src/controllers/resume.controller.js:359-365 | a defined field's column holds the field's value |
| ResumeController.UndefinedKeeps | src/controllers/resume.controller.js:344-350 | an undefined field leaves its column as it was |
| ResumeController.PatchDefined | src/controllers/resume.controller.js:344-365 | writing only the defined fields equals writing the whole field list |
| ResumeController.Changed | src/controllers/resume.controller.js:359-365 | an updated row keeps its id, owner and creation time and gets `updated_at = now`; a SET patches the columns, a delete only clears `is_active` |
| ResumeController.UpdateWhere | src/controllers/resume.controller.js:359-365 | `UPDATE … WHERE`: exactly the rows the WHERE clause hits change |
| ResumeController.FirstHit | src/controllers/resume.controller.js:188-193 | `RETURNING *`, first row: the first row hit, or none when no row is hit |
| ResumeController.NoHitNoChange | src/controllers/resume.controller.js:359-365 | an UPDATE that hits no row changes nothing |
| ResumeController.DeleteTwice | src/controllers/resume.controller.js:385-420 | after a soft delete the same WHERE clause hits nothing, and the id is no longer owned |
| ResumeController.Inserted | src/controllers/resume.controller.js:265-269 | `INSERT … RETURNING *`: the next id, the user, active, the columns, both timestamps `now` |
| ResumeController.UpdateById | src/controllers/resume.controller.js:359-365 | `WHERE id = $n AND is_active = true` changes row `id - 1` if it is active, and nothing else |
| ResumeController.UpdateKeeps | src/controllers/resume.controller.js:359-365 | an UPDATE keeps every row's id and owner, and never makes a row active again |
| ResumeController.OnePerUserLookup | src/controllers/resume.controller.js:44-72 | with the one-active-record rule, a user has at most one active personal-information row |
| ResumeController.UpdateOnePerUser | src/controllers/resume.controller.js:188-193 | UPDATEs keep the one-active-record rule |
| ResumeController.ResumeColumns | src/controllers/resume.controller.js:1356-1364 | the inserted resume stores the title, the personal-information id and the six lists |
| ResumeController.ResumePatchRefs | src/controllers/resume.controller.js:1640-1661 | after a resume update, each reference list is the new one if defined, else the old one |
| ResumeController.ValidatedRefsOwned | src/controllers/resume.controller.js:1342-1354 | a list that passes the batch check references only rows of the user |
| ResumeController.Expansion | src/controllers/resume.controller.js:1409-1533 | the expansion carries the stored resume |
| ResumeController.SectionIs | src/controllers/resume.controller.js:1437-1507 | each section is the expansion of the resume's list for that kind |
| ResumeController.ExpansionMeaning | src/controllers/resume.controller.js:1431-1519 | a section holds exactly the active rows with a listed id, sorted; the personal information is an active referenced row, absent iff none is active |
| ResumeController.ExpansionOwned | src/controllers/resume.controller.js:1431-1519 | with references owned when written, every expanded row is active and belongs to the resume's user |
| ResumeController.ResumeStore.CreatePersonalInformation | src/controllers/resume.controller.js:44-98 | 400 on invalid body; 409 when an active record exists; otherwise 201 and the inserted row |
| ResumeController.ResumeStore.GetPersonalInformation | src/controllers/resume.controller.js:101-131 | 404 iff the user has no active record; otherwise 200 and that record, the only one |
| ResumeController.ResumeStore.UpdatePersonalInformation | src/controllers/resume.controller.js:134-210 | 400 on invalid body; 404 without an active record; otherwise 200, the record patched with the fields (`WHERE user_id`) |
| ResumeController.ResumeStore.DeletePersonalInformation | src/controllers/resume.controller.js:213-245 | 404 iff there is no active record; afterwards the user has none |
| ResumeController.ResumeStore.Create | src/controllers/resume.controller.js:250-286 | the six create handlers: 400 on invalid body, otherwise 201 and the inserted row |
| ResumeController.ResumeStore.GetAll | src/controllers/resume.controller.js:289-313 | the six list handlers: the user's active rows, in the route's order |
| ResumeController.ResumeStore.Update | src/controllers/resume.controller.js:316-382 | the six update handlers: 400 invalid, 404 not owned, 400 when nothing is defined; otherwise 200, that row patched, every other row unchanged |
| ResumeController.ResumeStore.Delete | src/controllers/resume.controller.js:385-420 | the six delete handlers: 404 when not owned; otherwise 200, only that row deactivated, and the id no longer owned |
| ResumeController.ResumeStore.CheckRefs | src/controllers/resume.controller.js:1342-1354 | true iff every list passes the batch check |
| ResumeController.ResumeStore.CheckUpdateRefs | src/controllers/resume.controller.js:1565-1633 | true iff a given personal-information id is owned and every defined list passes the batch check |
| ResumeController.ResumeStore.CreateResume | src/controllers/resume.controller.js:1308-1379 | 400 invalid body; 400 when a reference is not the user's; otherwise 201 and the inserted resume |
| ResumeController.ResumeStore.GetResumes | src/controllers/resume.controller.js:1382-1406 | the user's active resumes, newest first |
| ResumeController.ResumeStore.GetResumeById | src/controllers/resume.controller.js:1409-1533 | 404 when not owned; otherwise 200 and the expansion, whose rows all belong to the caller and are active |
| ResumeController.ResumeStore.UpdateResume | src/controllers/resume.controller.js:1536-1678 | 400 invalid; 404 not owned; 400 when a new reference is not the user's; otherwise 200 and the resume patched with every field (defaults included) |
| ResumeController.ResumeStore.DeleteResume | src/controllers/resume.controller.js:1681-1714 | 404 iff not owned; afterwards not owned |
| ResumeController.HitIffActive | src/controllers/resume.controller.js:188-193 | the update by user hits a row iff the user has an active record |
| ResumeController.OwnsIsHit | src/controllers/resume.controller.js:1686-1693 | `WHERE id AND user_id AND is_active` hits a row iff the resume is owned |
| ResumeController.NotOwnedAfterDelete | src/controllers/resume.controller.js:1686-1693 | after the delete the resume is not owned |
| ResumeController.PersonalInfoUpdateNotEmpty | src/controllers/resume.controller.js:180-185 | an accepted personal-information update always defines a field, so the "No valid fields" branch is dead |
| ResumeController.ResumeUpdateResets | src/controllers/resume.controller.js:1640-1661 | a resume update without lists empties all six, and one without a title resets it to `Default Resume` |
| ResumeController.WorkExperienceUpdateBreaksDates | src/controllers/resume.controller.js:493-559 | moving a finished job's start past its end and marking it current is accepted, and the row then breaks both date rules of creation |
| ResumeController.NothingDefined | src/controllers/resume.controller.js:344-357 | fields that are all undefined give an empty SET list |
| ResumeController.EmptyUpdateRefused | src/controllers/resume.controller.js:352-357 | `{}` passes validation on the summary, project, skill, education and certification routes and then defines no field (400) |
| ResumeController.EmptyWorkExperienceUpdate | src/controllers/resume.controller.js:521-534 | `{}` on the work-experience route (object rule off) writes only `is_current = false` |
| AuthController.ExpiresAt | src/controllers/auth.controller.js:21-33 | a session expires `JWT_EXPIRES_IN` minutes after `now`, the same span as the cookie's `maxAge`; later than `now` iff the span is positive |
| AuthController.LocalPart | src/controllers/auth.controller.js:226 | `split('@')[0]`: a prefix of the email, without `@`, followed by `@` when shorter |
| AuthController.LastChars | src/controllers/auth.controller.js:226 | `slice(-4)`: the last four characters, or the whole id when shorter |
| AuthController.LocalPartOf | src/controllers/auth.controller.js:226 | the local part of `mailbox@rest` is the mailbox |
| AuthController.OAuthUsernameParts | src/controllers/auth.controller.js:226 | the synthesized username is mailbox, `_`, last four characters of the Google id |
| AuthController.UserAgent | src/controllers/auth.controller.js:258 | the header when truthy, else the empty string |
| AuthController.BrowserAgents | src/controllers/auth.controller.js:258-263 | a Mozilla agent is a browser; curl and a missing header are not |
| AuthController.FindFrom | src/controllers/auth.controller.js:289 | the first occurrence of the pattern at or after a position, or none |
| AuthController.ReplaceFirst | src/controllers/auth.controller.js:289 | `replace` with a string pattern: unchanged without an occurrence; otherwise the first occurrence, wherever it is, is swapped for the replacement (the prefix when the text starts with it) |
| AuthController.ReplaceInside | src/controllers/auth.controller.js:289 | `Bearer ` inside `xBearer t` is removed, giving `xt` |
| AuthController.BearerStripped | src/controllers/auth.controller.js:289 | `Bearer t` becomes `t` |
| AuthController.UserByEmail | src/controllers/auth.controller.js:140-146 | the first user with the email, or none iff no user has it |
| AuthController.Invalidated | src/controllers/auth.controller.js:36-44 | exactly the active sessions with the token become inactive with `updated_at = now` |
| AuthController.InvalidatedMeaning | src/controllers/auth.controller.js:36-44 | afterwards no active session has the token; ids, owners, tokens and expiries are kept; other tokens' sessions are untouched |
| AuthController.LogoutToken | src/controllers/auth.controller.js:289 | the header without `Bearer ` when that is truthy, else `body.token`, else the cookie |
| AuthController.LogoutTokenOrder | src/controllers/auth.controller.js:289 | a `Bearer t` header wins; a bare `Bearer ` or a missing header falls through to body then cookie |
| AuthController.AuthStore.CreateSession | src/controllers/auth.controller.js:21-33 | appends an active session for the user and token, expiring at `ExpiresAt`, and returns its id |
| AuthController.AuthStore.InvalidateSession | src/controllers/auth.controller.js:36-44 | the sessions become `Invalidated`; users unchanged |
| AuthController.AuthStore.Register | src/controllers/auth.controller.js:47-122 | 400 invalid; 409 and no insert when the email or username is taken; otherwise 201, a new USER with the hashed password, and a session for the signed token, set as cookie |
| AuthController.AuthStore.Login | src/controllers/auth.controller.js:125-198 | 400 invalid; the same 401 answer for an unknown email and a wrong password; otherwise 200 and a new session for the user |
| AuthController.AuthStore.GoogleAuth | src/controllers/auth.controller.js:201-284 | 500 without emails or photos; the existing user with the email, or a new USER named by the synthesized username; a session; a redirect to `/?token=…` iff the agent is a browser, else JSON |
| AuthController.AuthStore.Logout | src/controllers/auth.controller.js:287-316 | 400 and no change without a token; otherwise the token's sessions are invalidated, the cookie cleared, and the answer is 200 |
| AuthController.AuthStore.GetProfile | src/controllers/auth.controller.js:319-352 | 200 and the user without password iff a user has the id, else 404 |
| AuthController.UserByEmailUnique | src/controllers/auth.controller.js:140-155 | with unique emails the lookup finds the one user with the email |
| AuthController.LoginRefusedMeaning | src/controllers/auth.controller.js:148-164 | login is refused exactly when no user has both the email and a matching password |
| AuthMiddleware.Split | src/middlewares/auth.middleware.js:11 | `split(' ')`: at least one part, no part contains a space, and joining the parts gives the input back |
| AuthMiddleware.HeaderToken | src/middlewares/auth.middleware.js:10-11 | with a truthy header of at least two space-separated parts, the second part; otherwise none; a token never has a space |
| AuthMiddleware.HeaderSecondWord | src/middlewares/auth.middleware.js:11 | for any scheme word `w`, `w t…` yields `t`, whatever follows after a further space |
| AuthMiddleware.HeaderOneWord | src/middlewares/auth.middleware.js:11 | a header without a space yields no token |
| AuthMiddleware.RequestToken | src/middlewares/auth.middleware.js:10-14 | the header's token when truthy, else the cookie |
| AuthMiddleware.BearerToken | src/middlewares/auth.middleware.js:10-14 | a `Bearer t` header yields `t`, the same token logout revokes |
| AuthMiddleware.SplitWord | src/middlewares/auth.middleware.js:11 | `w t` splits into `[w, t]` |
| AuthMiddleware.FindLiveSession | src/middlewares/auth.middleware.js:27-41 | a user only from a session with the token that is active, unexpired and joined to an existing user; none iff no such session |
| AuthMiddleware.UserById | src/middlewares/auth.middleware.js:30 | the join finds the user with the id, or none iff there is none |
| AuthMiddleware.LiveIffSession | src/middlewares/auth.middleware.js:27-41 | in a consistent store the gate accepts exactly when some session with the token is live |
| AuthMiddleware.LogoutEndsSessions | src/middlewares/auth.middleware.js:27-41 | after a token is invalidated the gate finds no session for it, at any later time |
| AuthMiddleware.NewSessionLive | src/middlewares/auth.middleware.js:27-41 | a newly opened session lets its token through until it expires |
| AuthMiddleware.AuthenticateToken | src/middlewares/auth.middleware.js:7-74 | 401 without token; 401/401/500 for the three verification errors; 401 without a live session; otherwise `req.user` is the session's user and the route runs |
| AuthMiddleware.OptionalAuth | src/middlewares/auth.middleware.js:133-179 | never rejects; `req.user` is the live session's user, or null when the token is missing, fails verification or has no live session |
| AuthMiddleware.RequireRole | src/middlewares/auth.middleware.js:77-98 | passes iff there is a user whose role is allowed; 401 without a user, 403 otherwise |
| AuthMiddleware.RequireAdmin | src/middlewares/auth.middleware.js:101 | passes iff the user is an ADMIN |
| AuthMiddleware.SingleRoleWrapped | src/middlewares/auth.middleware.js:87 | a single role decides like the one-element list of it |
| AuthMiddleware.ResourceUserId | src/middlewares/auth.middleware.js:114 | the route's id when truthy, else the body's id as text |
| AuthMiddleware.RequireAdminOrOwner | src/middlewares/auth.middleware.js:104-130 | 401 without a user; passes iff ADMIN or the resource id's text equals the caller's id; 403 otherwise |
| AuthMiddleware.OwnerOnly | src/middlewares/auth.middleware.js:121-124 | a non-ADMIN passes for a route id iff it is their own id |
| AuthMiddleware.BodyNumberOwner | src/middlewares/auth.middleware.js:114-124 | a numeric body id equal to the caller's id passes |
| Common.IntToStringInjective | src/middlewares/auth.middleware.js:122 | distinct ids render to distinct strings |

## Left out

- PostgreSQL failures: the 500 answers of the `catch` blocks are not modelled, except the ones the code raises itself (Google profile without emails or photos, `jwt.verify` errors).
- Other failures: the pool, connections and SQL text are not modelled, and neither is `init_db.js`.
- Response bodies: only the status, the rows and the messages that matter for the properties are modelled. Error detail lists and timestamps are left out.
- Uniqueness constraints: no database constraint beyond SERIAL ids is modelled, because the table definitions are not part of this model. So Google sign-in may create a username that is already taken (it never checks usernames).
- Route parameters: a non-numeric `:id` is not modelled; ids are integers. Express routing, passport, cookies' flags, CORS and helmet are wiring.
- Text order: `ORDER BY name` is modelled as code-point order, not the database collation.
- Concurrency: races between concurrent requests that read and then write the same rows are out of scope; handlers run one at a time.
- Libraries: `jwt.sign`, `jwt.verify`, `bcrypt` and Joi's email and URI grammars are parameters. `Number(JWT_EXPIRES_IN)` is taken to be an integer.
- Google photo: the profile picture is read but never used, so only whether the photo list exists matters.
- `logoutSchema`: modelled as `ValidateLogout`, although the logout handler never applies it.
- Unknown keys: the Joi object schemas refuse a key they do not declare with 400. The typed request bodies cannot hold such a key, so the model does not show that refusal. It is also what keeps the update's `SET` list to schema columns (src/controllers/resume.controller.js:344-350).
- Type conversion: Joi's default `convert` option also accepts numeric, boolean and date strings (`"level": "3"`, `"is_current": "true"`). The bodies are typed values, so only already-converted input is modelled.
- String lengths: Joi's `min`/`max` count UTF-16 code units, while `|s|` counts characters; the two differ for characters outside the Basic Multilingual Plane.
- Stored values: dates are integer timestamps. `social_media_urls` is stored as its value, not its JSON text.
- ResumeController.Expansion: states only that it carries the resume; its meaning is stated by `SectionIs` and `ExpansionMeaning`.
- ResumeController.ResumeStore.Update: whether the work-experience object rule runs on the forked schema is the parameter `objectRule`, not decided.
- AuthMiddleware.FindLiveSession: picks the first matching session in insertion order, since the query has no `ORDER BY`.
