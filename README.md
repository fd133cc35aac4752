# User-account service, modelled in Dafny

This project models the decision and bookkeeping logic of a small FastAPI
user-account service, part of a storage-rental system, and proves properties
of that model. The service keeps one `users` table.

- It creates, lists, updates and deletes users.
- It authenticates them by password or by Google sign-in, and issues its own
  JWTs.
- It guards each user's record with an ownership check and ETag-based
  conditional requests.
- It runs email-verification jobs in an in-memory job store.
- It reads its CORS origins from one comma-separated setting.

Modules, one per source file:

| module | file | models |
|---|---|---|
| `Wrappers`, `Http`, `Text` | `wrappers.dfy`, `http.dfy`, `text.dfy` | `Option`/`Result`, `HTTPException`, and Python's `str(n)`, `int(s)` and `strip()` on ASCII |
| `DbModels` | `db_models.dfy` | `app/db_models.py`: the status enum, the row and its column constraints; the table as a value (`Table`) and as the session mutates it (`class UserTable`) |
| `Schemas` | `schemas.dfy` | `app/schemas.py`: the create and partial-update bodies, the phone and password validators and the length bounds |
| `CrudUsers` | `crud_users.dfy` | `app/crud_users.py`, the data layer the users router calls |
| `Crud` | `crud.dfy` | `app/crud/users.py`, the data layer with hashed passwords |
| `UsersRouter` | `users_router.dfy` | `app/routers/users.py`: ETag, HATEOAS links, the GET/PUT/DELETE decision procedures, listing, rentals guards and `JOB_STORE` |
| `AuthRouter` | `auth_router.dfy` | `app/routers/auth.py`: JWT claims, token-to-user resolution by numeric id, Google find-or-create |
| `Dependencies` | `dependencies.dfy` | `app/dependencies.py`: token-to-user resolution by email, and the active-status gate |
| `AuthDraft` | `dependencies_app.dfy` | `app/dependencies/app.py`, the earlier draft of the Google sign-in router |
| `Config` | `config.dfy` | `Settings.origins_list` in `app/config.py` |

How the state is modelled:

- A mutating operation is a method on `DbModels.UserTable` (or on
  `UsersRouter.JobStore`).
- Its `ensures` ties the result and the new table to a pure step function of
  the old table, such as `InsertStep`, `SaveStep`, `UpdateStep`,
  `DeleteOutcome` or `GoogleStep`.
- The properties are proved as lemmas about those step functions.
- Timestamps are whole seconds (the columns are DATETIME). The table
  carries the current second; a commit stamps rows with it without advancing
  it, and time passes only through `DbModels.Elapse`. Two commits can
  therefore fall in the same second.

Foreign code becomes function-typed parameters:

- password hashing and `verify_password`;
- JWT encoding and decoding;
- Google's `verify_oauth2_token`.

The current time the JWT code reads is an integer parameter.

Where the code and the system's design description differ, the model follows
the code:

- A duplicate email never produces a 409. The commit's `IntegrityError`
  escapes the handler, and the answer is a 500.
- A token whose subject is not a number is not answered 401.
  `int(user_id)` raises, and the answer is a 500.
- The listing and the 201 of `POST /` carry no `_links`: the handler adds
  them, but `response_model` validation drops every key `User` does not
  declare.
- The rentals listing answers 500 past its 403 guard: its placeholder dict
  fails validation against `List[UserRental]`.

Where the code has a defect recorded under Findings, the operations follow
the evidently intended behaviour, and the behaviour as written is modelled
beside them by a separate member. Each operation this affects is named under
Left out:

- The `hashed_password` column is declared NOT NULL, yet two create paths
  insert rows without a password.
- The 200 answers of `GET` and `PUT /{user_id}` pass `datetime` values to
  `JSONResponse`, which cannot encode them, so as written both answer 500;
  the `PUT` commits first.
- The 204 of `DELETE /{user_id}` returns a `Response` the module never
  imports, so as written the answer is 500, after the row was deleted.
- The job links leave out the router's `/users` prefix.
- The draft Google sign-in reads the user id with an eager `getattr`
  default that raises on every stored row, so as written each sign-in
  that reaches find-or-create answers 500, after the commit.

## Model

| member | source | states |
|---|---|---|
| DbModels.SetAttr | app/crud_users.py:53-54 | `setattr` writes exactly the named attribute and leaves every other attribute as it was |
| DbModels.RowErrorFieldwise | app/db_models.py:23-31 | a row passes the column check iff every NULL is in a nullable column (not first_name, last_name or email) and every value fits its `String(n)` bound (100/100/255/20/255/100/2/10, password 255) |
| DbModels.DeclaredRowError | app/db_models.py:26 | with `hashed_password` NOT NULL as declared, a row passes iff it passes the other checks and carries a password |
| DbModels.Violation | app/db_models.py:22-34 | a commit raises nothing iff the row passes the column checks and no other row holds its email (unique email) |
| DbModels.EmptyTableValid | app/db_models.py:18-34 | the empty table satisfies every table constraint |
| DbModels.ListingAscending | app/db_models.py:22 | an unfiltered scan returns the rows in ascending primary-key order |
| DbModels.ById | app/crud/users.py:11-13 | the lookup finds a row iff the id is stored, and then it is that row |
| DbModels.ByEmail | app/crud/users.py:16-18 | a found row is stored and has that email; `None` means no stored row has that email |
| DbModels.InsertPreservesValid | app/db_models.py:22-34 | an insert keeps every constraint; the new row gets an unused autoincrement id, and both `created_at` and `updated_at` are the current second |
| DbModels.SavePreservesValid | app/db_models.py:22-34 | committing a changed row keeps every table constraint |
| DbModels.RemovePreservesValid | app/crud_users.py:64-65 | deleting a row keeps every table constraint |
| DbModels.SaveRefreshesUpdatedAt | app/db_models.py:33-34 | a commit keeps the key, `created_at` and the password; `updated_at` either stays (no net change) or becomes the current second, and never moves back |
| DbModels.Filter | app/crud_users.py:33-38 | a filtered scan keeps exactly the rows that match the WHERE clause, never more rows than it scanned |
| DbModels.FilterAll | app/crud/users.py:23 | a query without filters returns every row in store order |
| DbModels.FilterAscending | app/crud_users.py:30-38 | filtering keeps ascending primary-key order |
| DbModels.Page | app/crud_users.py:41 | `offset(skip).limit(limit)` returns at most `limit` rows, the rows from position `skip` in order, exactly `min(limit, n - skip)` of them, and none when `skip >= n` |
| DbModels.UserTable.constructor | app/db_models.py:18-34 | a new table is empty and valid |
| DbModels.UserTable.Insert | app/crud_users.py:17-19 | `add`/`commit`/`refresh` performs `InsertStep` and keeps the table valid |
| DbModels.UserTable.Save | app/crud/users.py:83-84 | `commit`/`refresh` of a changed row performs `SaveStep` and keeps the table valid |
| DbModels.UserTable.Remove | app/crud/users.py:104-105 | `delete`/`commit` performs `RemoveStep` and keeps the table valid |
| DbModels.UserTable.Select | app/crud_users.py:41 | the scan of the table returns `Page(Filter(rows in store order, q), skip, limit)` |
| Schemas.SetFields | app/crud_users.py:51 | `dict(exclude_unset=True).items()` holds exactly the sent fields with their sent values (null included), each field once |
| Schemas.RemoveAll | app/schemas.py:31 | `replace(c, '')` keeps exactly the characters other than `c` |
| Schemas.ValidatePhoneAccepts | app/schemas.py:29-33 | a phone passes iff it is empty, or it consists of digits and `-()` and spaces and holds at least one digit |
| Schemas.ValidatePhoneKeepsValue | app/schemas.py:29-33 | the phone validator returns the value unchanged, and always accepts a missing or empty phone |
| Schemas.PasswordField | app/schemas.py:38-48 | a password is accepted iff it has 8 to 100 characters, a digit and a letter; the value is kept |
| Schemas.PasswordLengthMessageUnreachable | app/schemas.py:38-43 | the field bound runs first, so the validator's "at least 8 characters long" message is never the answer |
| Schemas.ValidatePasswordOrder | app/schemas.py:40-48 | the validator reports length, then a missing digit, then a missing letter, and accepts iff length >= 8 with a digit and a letter |
| Schemas.UpdateSkipsPhoneValidator | app/schemas.py:51-60 | an update body can carry a phone that the create body's validator refuses |
| Schemas.CreateBoundsFitColumns | app/schemas.py:20-27 | a valid create body (email within 255) yields a profile that every column accepts |
| CrudUsers.CreateUser | app/crud_users.py:6-20 | creating performs `InsertStep` on that row and keeps the table valid |
| CrudUsers.CreateUserStores | app/crud_users.py:6-20 | a created row has the body's profile, no password, status ACTIVE by default, a fresh id and equal timestamps, and is the only row added |
| CrudUsers.CreateUserRejectedAsDeclared | app/db_models.py:26 | with the column as declared, every row `create_user` builds fails with `IntegrityError` |
| CrudUsers.CreateUserAcceptedWhenNullable | app/crud_users.py:6-20 | with a nullable password column, a valid body whose email is free is stored |
| CrudUsers.QueryOf | app/crud_users.py:33-38 | a row passes the built filter iff it agrees with every truthy argument; with none truthy nothing is filtered |
| CrudUsers.GetUsers | app/crud_users.py:22-41 | the query built filter by filter returns `SelectSpec` of the truthy filters with `skip` and `limit` (default 10) |
| CrudUsers.GetUsersRows | app/crud_users.py:30-41 | every listed row is stored and matches every supplied filter |
| CrudUsers.GetUsersAscending | app/crud_users.py:41 | the listing is in ascending id order |
| CrudUsers.GetUsersComplete | app/crud_users.py:41 | a first page at least as large as the table lists every matching row |
| CrudUsers.OrderLength | app/db_models.py:22 | store order lists each stored id once |
| CrudUsers.Merge | app/crud_users.py:51-54 | each sent column takes the sent value (null included); every other column keeps its value |
| CrudUsers.SetAllDistinct | app/crud_users.py:53-54 | `setattr` over distinct fields writes each named field and leaves the others alone |
| CrudUsers.SetFieldsMerge | app/crud_users.py:51-54 | applying `setattr` to the sent fields one at a time yields the merged profile |
| CrudUsers.AssignAttributes | app/crud_users.py:53-54 | the `setattr` loop produces exactly the merged profile |
| CrudUsers.UpdateUser | app/crud_users.py:44-58 | the update performs `UpdateStep` and keeps the table valid |
| CrudUsers.UpdateStepMeaning | app/crud_users.py:44-58 | an unknown id gives `None` and no change; a stored id gets the row or the commit's error; a failed commit changes nothing; a success changes only that row, only in the sent columns, keeps its status, password, key and `created_at`, and a changed row carries the current second |
| CrudUsers.MergeIdempotent | app/crud_users.py:51-54 | applying a patch twice is the same as applying it once; the empty patch changes nothing |
| CrudUsers.EmptyUpdateChangesNothing | app/crud_users.py:51-56 | an update that sends no field returns the row and leaves the table exactly as it was, `updated_at` included |
| CrudUsers.DeleteUser | app/crud_users.py:59-66 | deleting performs `DeleteStep` and keeps the table valid |
| CrudUsers.DeleteStepMeaning | app/crud_users.py:59-66 | the result is true iff the id was stored; afterwards the id is absent, every other row is as it was, and on false the table is unchanged |
| Crud.GetUser | app/crud/users.py:11-13 | a row is returned iff the id is stored, and it is the row with that id |
| Crud.GetUserByEmail | app/crud/users.py:16-18 | the result is the row with that email, or `None` |
| Crud.ByEmailFinds | app/crud/users.py:16-18 | emails are unique, so each stored row is found by its own email |
| Crud.GetUsers | app/crud/users.py:21-23 | the rows in store order, `[skip:skip+limit]`, with limit 100 by default |
| Crud.CreateUser | app/crud/users.py:26-59 | creating performs `InsertStep` on that row and keeps the table valid |
| Crud.CreateUserStoresHash | app/crud/users.py:37-52 | a created row stores the hash rather than the password, is ACTIVE whatever was asked, holds the body's profile, and also passes the column check as declared |
| Crud.UpdateUser | app/crud/users.py:62-86 | the update behaves as `CrudUsers.UpdateStep` |
| Crud.DeleteUser | app/crud/users.py:89-107 | the delete behaves as `CrudUsers.DeleteStep` |
| Crud.Authenticate | app/crud/users.py:110-127 | a user is returned iff the email is stored and `verify_password` accepts the password against that user's hash, and it is the user with that email |
| Crud.AuthenticateUser | app/crud/users.py:110-127 | the method returns `Authenticate` of the table |
| Crud.AuthenticateStoredUser | app/crud/users.py:122-127 | a stored user authenticates by their email exactly when `verify_password` accepts |
| Crud.UpdateUserStatus | app/crud/users.py:130-150 | the status change performs `StatusStep` and keeps the table valid |
| Crud.StatusStepMeaning | app/crud/users.py:142-150 | an unknown id gives `None` and no change; for a stored row the commit always succeeds, only that row's status changes (and `updated_at`, to the current second), and setting the same status changes nothing |
| UsersRouter.ViewHidesPassword | app/routers/users.py:53-55 | two rows have the same response view iff they differ at most in the password hash |
| UsersRouter.LinksResolve | app/routers/users.py:53-62 | the self link of a resource or listing entry routes back to that user's id |
| UsersRouter.EtagIdentifies | app/routers/users.py:47-52 | two rows have equal ETags iff they agree on `user_id` and `updated_at` |
| UsersRouter.ReadOutcome | app/routers/users.py:152-173 | another user's id gives 403; then a missing row gives 404; then a non-empty `If-None-Match` equal to the ETag gives 304 with no ETag; otherwise the resource with its ETag |
| UsersRouter.GetUserById | app/routers/users.py:140-173 | the handler answers `ReadOutcome` |
| UsersRouter.ReadAsWrittenNeverDelivers | app/routers/users.py:165-173 | as written, no read delivers the user: exactly where the intended handler answers 200 the code answers 500, and elsewhere the two agree |
| UsersRouter.ReadForbiddenIgnoresStore | app/routers/users.py:152-158 | reading another user's record gives the same 403 whatever the table holds |
| UsersRouter.RevalidateWithEtag | app/routers/users.py:161-167 | a handed-out ETag earns 304 exactly while the row keeps the same `updated_at` |
| UsersRouter.UpdateUser | app/routers/users.py:190-231 | the handler answers, and changes the table, as `UpdateOutcome` |
| UsersRouter.UpdateOutcomeMeaning | app/routers/users.py:203-231 | the checks run in the order 403, 404, 412, and a rejection leaves the table untouched; when the checks pass (own record, stored, `If-Match` absent, empty or matching) the table is `update_user`'s, and the answer is 200 iff the commit succeeds, else 500 with nothing changed; a 200 carries the stored row, patched field by field from the body with status and `created_at` kept, no other row changed, and its new ETag |
| UsersRouter.UpdateAccepted | app/routers/users.py:222-231 | past the checks, the table is `update_user`'s and the answer is 200 with the patched row and its ETag iff the commit succeeds |
| UsersRouter.UpdateAsWrittenCommitsThenFails | app/routers/users.py:222-231 | as written, every update past the checks is answered 500 while its commit stands: the table changes as under the intended handler |
| UsersRouter.LostUpdatePrevented | app/routers/users.py:211-223 | when the row was last written in an earlier second, after one client commits a change a second update carrying the old ETag is refused with 412 and changes nothing |
| UsersRouter.SameSecondUpdateLost | app/routers/users.py:47-52 | when the row was last written in the current second, a committed change keeps its ETag, so a second update with the old ETag passes the check and is committed |
| UsersRouter.DeleteUser | app/routers/users.py:236-273 | the handler answers, and changes the table, as `DeleteOutcome` |
| UsersRouter.DeleteOutcomeMeaning | app/routers/users.py:248-270 | the checks run in the order 403, 404, 412; the answer is 204 iff all pass, and then exactly that row is removed; every rejection leaves the table untouched |
| UsersRouter.DeleteAsWrittenRemovesThenFails | app/routers/users.py:265-273 | as written, no delete is answered 204: every delete past the checks removes the row exactly as the intended handler does and is answered 500; elsewhere the two agree |
| UsersRouter.ListEntries | app/routers/users.py:120-131 | one entry per listed user, in order, entry i being user i with its self, update and delete links |
| UsersRouter.ListUsers | app/routers/users.py:98-131 | `skip < 0` or `limit` outside 1..100 gives 422; otherwise item i is the view of the i-th listed user, the links having been dropped by `response_model=List[User]` |
| UsersRouter.CreateUser | app/routers/users.py:176-183 | the handler answers, and changes the table, as `CreateOutcome` |
| UsersRouter.CreateOutcomeMeaning | app/routers/users.py:176-183 | a 201 carries the view (links dropped by `response_model=User`) of a newly stored row under a fresh id with the body's profile; a 500 leaves the table unchanged |
| UsersRouter.RentalsOutcome | app/routers/users.py:309-328 | the answer is 403 iff the caller is another user; for the caller's own id it is 500, the placeholder failing `List[UserRental]` validation |
| UsersRouter.RentalDetailsOutcome | app/routers/users.py:344-348 | the answer is 403 iff the caller is another user, whatever the rental id |
| UsersRouter.PollLink | app/routers/users.py:385-386 | the poll link of a job matches the job-status route's pattern, with that job id |
| UsersRouter.PollLinkAsWrittenMisses | app/routers/users.py:381 | the poll link as written never matches the job-status route |
| UsersRouter.Poll | app/routers/users.py:391-394 | polling gives 404 iff the job is unknown, and otherwise the job's stored status |
| UsersRouter.JobLifecycle | app/routers/users.py:37-42 | a submitted job polls as pending, then as completed after processing; neither step changes what any other job answers |
| UsersRouter.JobStore.constructor | app/routers/users.py:33 | the job store starts empty |
| UsersRouter.JobStore.VerifyEmail | app/routers/users.py:359-384 | the job is recorded as pending, with no other job touched; the answer is 202-accepted with the job id and its links |
| UsersRouter.JobStore.ProcessEmailVerification | app/routers/users.py:37-42 | that job becomes completed and no other job is touched |
| UsersRouter.JobStore.GetJobStatus | app/routers/users.py:385-402 | the handler answers `Poll` of the store |
| UsersRouter.JobScenario | app/routers/users.py:359-402 | submitting and then polling a job gives pending; after processing, polling gives completed |
| AuthRouter.GetUserId | app/routers/auth.py:88-92 | the subject is `str(user_id)` when present, else `str(id)`; it fails only when both are missing |
| AuthRouter.MintClaims | app/routers/auth.py:95-103 | the claims are `sub = str(user_id)`, `email`, `iat = now`, `exp = now + minutes * 60` |
| AuthRouter.MintedSubjectParses | app/routers/auth.py:97-102 | `int(sub)` of a minted token is the user's id, and the token lives exactly `minutes` minutes |
| AuthRouter.GetCurrentUser | app/routers/auth.py:111-146 | an undecodable token gives 401 "Invalid or expired token"; a missing `sub` gives 401 "Invalid token payload"; a `sub` `int()` refuses gives 500; a parsed id with no row gives 401 "User not found"; success happens iff `int(sub)` parses to a stored id, and then the result is that row |
| AuthRouter.MintedTokenResolves | app/routers/auth.py:95-146 | a token minted for a stored user resolves back to that user |
| AuthRouter.TokenHolderOwnsOnlyOwnRecord | app/routers/users.py:141-153 | whoever a token resolves to gets 403 on read, update and delete of any other user's record, with the table untouched |
| AuthRouter.GoogleGate | app/routers/auth.py:168-198 | a missing or placeholder client id gives 500; the gate passes iff verification succeeds, the audience is the client id and the email is non-empty; names default to ""; failures are 500, 401 or 400 |
| AuthRouter.UnconfiguredIgnoresToken | app/routers/auth.py:168-172 | with no usable client id, every token gets the same answer |
| AuthRouter.FindOrCreate | app/routers/auth.py:203-215 | the method performs `FindOrCreateStep` and keeps the table valid |
| AuthRouter.FindOrCreateMeaning | app/routers/auth.py:200-215 | an existing email returns its user and creates nothing; a new email stores a new ACTIVE user with the given names and changes no other row; the user always holds that email |
| AuthRouter.GoogleLogin | app/routers/auth.py:158-223 | the handler answers, and changes the table, as `GoogleStep` |
| AuthRouter.GoogleStepMeaning | app/routers/auth.py:158-223 | a refused sign-in changes nothing; a success answers with a bearer token that resolves to a stored user holding the verified email, and with that user's view |
| Dependencies.GetCurrentUser | app/dependencies.py:16-54 | every failure is the same 401 "Could not validate credentials" with `WWW-Authenticate: Bearer`; success happens iff the token decodes, has a `sub`, and some stored user has that email, and then it is that user |
| Dependencies.GetCurrentActiveUser | app/dependencies.py:57-77 | a failure passes through; a non-ACTIVE user gives 403; otherwise the same user is returned |
| Dependencies.ActiveUserAdmission | app/dependencies.py:16-77 | a request is admitted iff its token names, by email, a stored ACTIVE user; every refusal is the 401 or the 403 |
| AuthDraft.GetUserIdAsWrittenFailsOnRows | app/dependencies/app.py:59-64 | the eager `getattr` default raises for every stored row, while the lazy lookup reads `user_id` |
| AuthDraft.GetUserIdAgreesWithId | app/dependencies/app.py:59-64 | on objects that have `id`, the eager and lazy lookups agree |
| AuthDraft.GoogleStepAsWrittenNeverSucceeds | app/dependencies/app.py:139-156 | the flow as written mints a token whenever `_get_user_id` answers, yet no sign-in succeeds, because the eager `getattr` raises on every row find-or-create returns; the answer is then 500 with a new user already committed |
| AuthDraft.GoogleLogin | app/dependencies/app.py:90-156 | the corrected draft handler answers, and changes the table, as `AuthDraft.GoogleStep` |
| AuthDraft.UnsetClientIdRefusesAll | app/dependencies/app.py:101-105 | with `GOOGLE_CLIENT_ID` unset, the placeholder default gives 500 to every request and changes nothing |
| AuthDraft.DraftMatchesRouter | app/dependencies/app.py:90-156 | with the same client id, the corrected draft changes the table exactly as the router does and issues the same token; outside the 400 case it fails with the same error |
| Config.Split | app/config.py:39 | `split(",")` gives one more piece than there are commas |
| Config.SplitNoComma | app/config.py:39 | no piece of `split(",")` holds a comma |
| Config.SplitAppend | app/config.py:39 | splitting `a + "," + b` gives the pieces of `a` followed by the pieces of `b` |
| Config.JoinSplit | app/config.py:39 | joining the pieces with commas gives the setting back |
| Config.SplitJoin | app/config.py:39 | splitting comma-free pieces joined by commas gives the pieces back |
| Text.StripSlice | app/config.py:39 | `strip()` returns a contiguous slice of its input that is empty or has non-whitespace ends, and everything it drops is whitespace |
| Config.OriginsList | app/config.py:36-39 | there are (number of commas + 1) origins, and origin i is piece i with surrounding whitespace stripped |
| Config.OriginsTrimmed | app/config.py:39 | no origin starts or ends with whitespace or holds a comma |
| Config.OriginsOfJoin | app/config.py:39 | origins listed without extra whitespace come back exactly |
| Config.DefaultOrigins | app/config.py:26-39 | the default setting yields `["http://localhost:3000", "http://localhost:8080"]` |

## Left out

- Password hashing and `verify_password` are parameters. `app/security.py` is not part of this model.
- JWT signing and decoding (PyJWT) are parameters. A decode failure of any kind, expiry included, is `None`, and the secret and algorithm do not appear.
- Google's `verify_oauth2_token` is a parameter. A raised exception is `None`.
- UsersRouter.Etag: SHA-256 is treated as injective, so the ETag is the string it digests, `"{user_id}-{updated_at}"`. Hash collisions are not modelled.
- Timestamps and `datetime.utcnow()` are integer seconds. The database's current second is part of the table and advances only through `DbModels.Elapse`; time zones and ISO formatting are not modelled.
- `threading.Thread` and `time.sleep(5)`: completing a job is a separate method the caller invokes. Interleavings with other requests are not modelled.
- `uuid.uuid4()` is replaced by a job id passed in by the caller.
- `app/database.py`, `app/main.py` and `app/test_db.py` are not modelled. They contain I/O configuration, app wiring and a live connection test.
- `app/models.py` supplies only the unconstrained request shapes the users router imports. These are the `Schemas` datatypes without the validity predicates.
- The stub endpoints `register_user` and `login_user` are not modelled, and neither is `MOCK_USER`. The rentals endpoints are modelled by their 403 guard and the answer past it: 500 for the listing, `Stub` for a rental's details.
- UsersRouter.DeleteOutcome: answers the intended 204 after the removal. The `Response` used at `app/routers/users.py:273` is never imported, so as written that line raises after the deletion was committed and the answer is 500 (Findings; `UsersRouter.DeleteOutcomeAsWritten`).
- UsersRouter.DeleteUser: answers `DeleteOutcome`, whose 204 the code as written turns into a 500 after the removal (Findings).
- UsersRouter.DeleteOutcomeMeaning: states the intended 204; `UsersRouter.DeleteAsWrittenRemovesThenFails` states the answer as written.
- AuthDraft.GoogleStep: models the corrected draft, which reads the id as `app/routers/auth.py:88-92` does. As written (`app/dependencies/app.py:64`) every sign-in that reaches find-or-create is answered 500 after the commit (Findings; `AuthDraft.GoogleStepAsWritten`).
- AuthDraft.GoogleLogin: answers the corrected draft's token, as `AuthDraft.GoogleStep`; as written every such sign-in is 500 after the commit (Findings; `AuthDraft.GoogleStepAsWritten`).
- FastAPI's request-body validation (422 before the handler runs) is not performed by the handlers. The bounds are stated separately as `Schemas.ValidUserCreate` and `Schemas.ValidUserUpdate`.
- `EmailStr` syntax checking is not modelled. An email is any string.
- UsersRouter.ListUsers: the 422 detail text is simplified.
- The caller's identity reaches the users router as an already resolved user id. A missing `Authorization` header, refused by FastAPI's security scheme, is not modelled.
- Unicode semantics of `isdigit`, `isalpha`, `strip` and `int()` are not modelled. These are restricted to ASCII, and `int()` underscores are not accepted.
- DbModels.ByEmail: email matching is exact, and so is the uniqueness `DbModels.Violation` enforces. Under the database's case-insensitive collation, `a@x.io` also finds, and collides with, a stored `A@x.io`.
- DbModels.Matches: the city, state and status filters compare exactly. Under the database's case-insensitive collation `?state=ny` also lists a row holding `NY`, and SQLAlchemy's `Enum` bind also accepts the member name, so `?status=ACTIVE` lists the active users; the model lists nothing for either.
- DbModels.Filter: keeps the rows `DbModels.Matches` accepts, so it compares exactly as that line says.
- CrudUsers.QueryOf: its match condition compares exactly, as the `DbModels.Matches` line says.
- CrudUsers.GetUsers: lists by `DbModels.Matches`, so a filter differing from the stored value only in case, or a status given by member name, lists nothing.
- An autoincrement value is not consumed by a failed insert. Some databases do consume it.
- UsersRouter.ListUsers: the status filter compares the request string with the enum's value (`"active"`), as the `DbModels.Matches` line says; how SQLAlchemy stores enum members is not modelled.
- CrudUsers.GetUsers and Crud.GetUsers take `skip` and `limit` as natural numbers. The negative values the database would reject cannot be passed at this layer; the router rejects them with 422 first.
- A failed commit is assumed to roll back, so the table is unchanged. The exception then escapes the handler as a 500.
- The `User` response model's status default (`app/schemas.py:66`) is not modelled, because every row carries a status.
- `UserRental.monthly_rate` is a float and is not modelled.
- DbModels.RowError: takes `hashed_password` as nullable, the evidently intended column (see Findings). The declaration as written is `DbModels.DeclaredRowError`, under which every password-less insert fails; the operations built on the table, `UsersRouter.CreateOutcome` and `AuthRouter.GoogleStep` among them, succeed where the code as declared fails.
- DbModels.RowErrorFieldwise: states the column check with `hashed_password` nullable, not the NOT NULL of `app/db_models.py:26`; `DbModels.DeclaredRowError` states the check as declared.
- UsersRouter.ReadOutcome: answers the intended 200 with the resource and its ETag. As written the code answers 500 there (Findings; `UsersRouter.ReadOutcomeAsWritten`).
- UsersRouter.GetUserById: answers `ReadOutcome`, whose 200 the code as written turns into a 500 (Findings).
- UsersRouter.UpdateOutcome: answers the intended 200 after a successful commit. As written the code answers 500 after the commit (Findings; `UsersRouter.UpdateOutcomeAsWritten`).
- UsersRouter.UpdateUser: answers `UpdateOutcome`, whose 200 the code as written turns into a 500 after the commit (Findings).
- UsersRouter.UpdateOutcomeMeaning: states the intended 200; `UsersRouter.UpdateAsWrittenCommitsThenFails` states the answer as written.
- UsersRouter.JobStore.VerifyEmail: answers the corrected poll link `/api/v1/users/jobs/{job_id}`. As written the link is `/api/v1/jobs/{job_id}` (Findings).
- UsersRouter.PollLink: the link matches the job-status route's pattern. Route order is not modelled: the rentals route (`app/routers/users.py:309`) is declared first and also matches `/api/v1/users/jobs/rentals`, so a job id `rentals`, which `uuid4` never yields, would not reach the job-status handler.
- UsersRouter.JobStore.GetJobStatus: answers `Poll`, whose self link is the corrected one. As written it is `/api/v1/jobs/{job_id}` (`app/routers/users.py:400`).
- UsersRouter.Poll: the self link is the corrected one, as for `GetJobStatus`.
- DbModels.ListingAscending: a scan returns rows in insertion order, which is ascending key order. The queries have no ORDER BY (`app/crud_users.py:41`), so the order the database returns is an assumption.
- AuthRouter.GoogleStep takes the client id as a parameter. The router's default is `AuthRouter.DefaultClientId` (`app/routers/auth.py:54`).
- The users router (`app/routers/users.py:6`), the auth router (`app/routers/auth.py:27`) and the data layer (`app/crud_users.py:2`) import `UserDB`, but `app/db_models.py` defines only `User`; they are taken to be the same table. As written these imports raise `ImportError`, so `app/main.py:7`, which imports the users router, fails and the service does not start; `app/main.py:46` mounts only the users router, so the auth router is not served either way. The draft imports `app.models.user`, which is not in the repository; it is modelled against the same table.

## Findings

| source | as written | input that shows it | evidently intended | confidence | as-written member | corrected member |
|---|---|---|---|---|---|---|
| app/db_models.py:26 | `hashed_password` is NOT NULL, but `create_user` in `app/crud_users.py` and Google sign-in insert rows without a password | any valid body posted to `POST /api/v1/users`: the commit raises `IntegrityError` | rows without a local password are storable | medium, not executed | CrudUsers.CreateUserRejectedAsDeclared | CrudUsers.CreateUserAcceptedWhenNullable |
| app/dependencies/app.py:64 | `getattr(user, "user_id", getattr(user, "id"))` evaluates the fallback first, and a stored row has no `id` | any successful Google sign-in: token minting raises after the user was committed, so the answer is 500 | read `id` only when `user_id` is missing, as `app/routers/auth.py:88-92` does | high, not executed | AuthDraft.GoogleStepAsWrittenNeverSucceeds | AuthRouter.GetUserId |
| app/routers/users.py:171 | `JSONResponse(content=add_hateoas(user))` renders with `json.dumps`, which cannot encode the `datetime` values `model_dump()` leaves in `created_at` and `updated_at` | `GET /api/v1/users/5` by user 5, row 5 stored, no `If-None-Match`: `TypeError`, answered 500 | 200 with the resource and its ETag | high, not executed | UsersRouter.ReadAsWrittenNeverDelivers | UsersRouter.ReadOutcome |
| app/routers/users.py:228 | the same `JSONResponse` after `update_user_db` has committed | any `PUT /api/v1/users/{id}` by its owner that passes the If-Match check and commits: 500, with the change stored | 200 with the updated resource and its new ETag | high, not executed | UsersRouter.UpdateAsWrittenCommitsThenFails | UsersRouter.UpdateOutcomeMeaning |
| app/routers/users.py:273 | `return Response(status_code=204)`, but `Response` is never imported into the module | `DELETE /api/v1/users/5` by user 5, row 5 stored, no `If-Match`: `NameError` after `delete_user_db` committed, answered 500 with the row gone | 204 with no body | high, not executed | UsersRouter.DeleteAsWrittenRemovesThenFails | UsersRouter.DeleteOutcomeMeaning |
| app/routers/users.py:381 | the poll link is `/api/v1/jobs/{job_id}`, but the route is under the `/api/v1/users` prefix (line 400 has the same self link) | any job id: the link hits no route | `/api/v1/users/jobs/{job_id}` | high, not executed | UsersRouter.PollLinkAsWrittenMisses | UsersRouter.PollLink |
