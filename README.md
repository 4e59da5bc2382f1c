# revisadu backend core, modelled in Dafny

revisadu is a vehicle-maintenance platform. Clients register vehicles. Mechanics register maintenance
records against them. Clients approve or reject those records and review the mechanic afterwards. A
FIPE price table, fetched from an upstream API, gives vehicle values. This project models the core of
the Node/Express backend and proves properties of the model.

The modelled core:

- **FIPE refresh and reader** (`server/utils/fipeCache.js`).
  - The crawl that fills the `fipe_brands`, `fipe_models`, `fipe_years` and `fipe_values` tables is
    the class `FipeCache.FipeCacheService`. Its run log is `fipe_update_log`, and the crawl is capped
    at 10 brands × 5 models × 3 years.
  - The staleness rule and the readers are functions of the store.
- **In-memory TTL cache** (`server/utils/fipe.js`). The cache `Map` with its 24-hour expiry and the
  cache-then-fetch wrappers is the class `FipeService.FipeApiCache`.
- **Authentication middleware** (`server/middleware/auth.js`). Bearer-token extraction, the role gates
  and the ownership decision are pure gates.
- **Account routes** (`server/routes/auth.js`). Register, login, e-mail verification and
  password reset are methods over the users table, each proved equal to an outcome function.
- **Client, mechanic and maintenance routes** (`server/routes/clients.js`, `mechanics.js`,
  `maintenance.js`).
  - The vehicle guards and the dynamic `UPDATE … SET` builder.
  - The approve/reject/review state machine and the maintenance listings with their pagination.
  - Profile upsert, client and vehicle find-or-create, and the evidence upload with its file filter.
  - The mechanic search with its `$n` placeholder builder, and the public review listing.

How the model is built:

- The relational store is the datatype `Store.Db`, with one sequence of rows per table. It lives in
  the mutable object `Store.Database`.
- Each route handler is a `method` that updates that object. Its `ensures` ties the new state and
  the reply to an outcome function of the old state.
- The lemmas state the properties of those outcome functions: guards, one-shot tokens, invariants
  kept, round trips and exact characterisations.
- The SQL text the handlers build is modelled as strings, and the builders' placeholder numbering is
  proved.
- External mechanisms are parameters:
  - time is `now: int` in milliseconds;
  - bcrypt and JWT are the oracles `hash`, `compare`, `sign` and `verify`;
  - the FIPE upstream is a function from a request to `Fetch` of a reply: `Fetched(data)` or `FetchFailed(message)`;
  - the FIPE refresh's statement failures are the oracle `fault`, from a statement to an optional error message, and the readers take `failure: Option<string>`;
  - a mail failure (`mailFails`) and the ownership query's failure (`failure` of `RequireOwnership`) are booleans;
  - the route handlers otherwise answer 500 only where the modelled statement itself is refused, for instance an `:id` that is not an integer, an `UPDATE` assigning a column twice, a value its column does not take.

Files:

| file | module |
|---|---|
| common.dfy | `Common`: Option, filtering, splitting and joining, number formatting, `LOWER`, `TRIM`, the substring test `Contains` |
| store.dfy | `Store`: the tables, their invariant `Valid`, the `Database` object, `:id` parsing |
| sorting.dfy | `Sorting`: a stable insertion sort used for `ORDER BY` |
| pagination.dfy | `Pagination`: `page`/`limit` defaults, `OFFSET`, page count |
| fipe_tables.dfy | `FipeTables`: the four FIPE tables and the upsert by key |
| fipe_cache.dfy | `FipeCache`: staleness, run log, clear, fetch-and-save, the full crawl |
| fipe_cache_properties.dfy | `FipeCacheProperties`: what the crawl guarantees |
| fipe_readers.dfy | `FipeReaders`: the read queries and cache statistics |
| fipe_service.dfy | `FipeService`: the in-memory TTL cache and its wrappers |
| auth_middleware.dfy | `AuthMiddleware` |
| auth_routes.dfy | `AuthRoutes` |
| client_vehicles.dfy | `ClientVehicles`: vehicle create/update/delete and the `SET` builder |
| client_maintenance.dfy | `ClientMaintenance`: approve, reject, review |
| record_listing.dfy | `RecordListing`: the maintenance listings of both sides |
| mechanic_routes.dfy | `MechanicRoutes`: profile, find-or-create registration |
| evidence_upload.dfy | `EvidenceUpload`: file filter and evidence rows |
| mechanic_search.dfy | `MechanicSearch`: the search builder and its results |
| maintenance_routes.dfy | `MaintenanceRoutes`: approval lookup, public reviews |

## Model

| member | source | states |
|---|---|---|
| AuthMiddleware.Authenticate | server/middleware/auth.js:4-19 | no bearer token gives 401, a token that `jwt.verify` rejects gives 403, and otherwise the request continues with the verified claims |
| AuthMiddleware.BearerTokenOfHeader | server/middleware/auth.js:5-6 | the token is the second space-separated field of the header, whatever the scheme word and whatever follows |
| AuthMiddleware.HeaderWithoutSpaceIsRejected | server/middleware/auth.js:5-10 | a header with no space has no second field and is refused with 401 |
| AuthMiddleware.AuthenticateFollowsVerify | server/middleware/auth.js:12-18 | given a token, 403 exactly when verification fails, and otherwise the request continues with the verified user |
| AuthMiddleware.RoleGatesAreExclusive | server/middleware/auth.js:22-35 | no user passes both `requireMechanic` and `requireClient`, and a user passes one of them iff its type is client or mechanic |
| AuthMiddleware.OwnershipGrantedExactly | server/middleware/auth.js:38-91 | `requireOwnership` lets the request through iff the row with that id exists in the resource's table and the user owns it (for maintenance: is its client or its mechanic) |
| AuthMiddleware.VehicleOwners | server/middleware/auth.js:47-50 | with unique ids, the vehicle lookup returns the owner of exactly the vehicle row with that id |
| AuthMiddleware.MaintenanceOwners | server/middleware/auth.js:51-54 | with unique ids, the maintenance lookup returns the client and mechanic of exactly the record with that id |
| AuthMiddleware.ProfileOwners | server/middleware/auth.js:55-58 | with unique ids, the profile lookup returns the owner of exactly the profile row with that id |
| AuthMiddleware.MissingResourceIsNotFound | server/middleware/auth.js:64-68 | a known resource type whose row does not exist gives 404 |
| AuthMiddleware.UnknownResourceTypeIsBadRequest | server/middleware/auth.js:47-62 | a resource type other than vehicle, maintenance and profile gives 400 "Tipo de recurso inválido" before any query, whatever the id |
| AuthMiddleware.ExistingRowWithoutAccessIsForbidden | server/middleware/auth.js:64-82 | in a valid database, an existing row whose owner (or client and mechanic) is not the user gives 403 "Acesso negado", not 404 or 500 |
| AuthMiddleware.OutOfRangeIdIsServerError | server/middleware/auth.js:42-64 | an `:id` above the `integer` range makes the ownership query throw, so the middleware answers 500 rather than 404 or 403 |
| AuthRoutes.ConfirmEmails | server/routes/auth.js:156-159 | the verification `UPDATE` keeps every row's id and e-mail; it verifies exactly the rows holding the token and clears their token |
| AuthRoutes.SetResetToken | server/routes/auth.js:199-205 | the reset `UPDATE` stores the token and expiry on the row with that id only, and changes nothing else |
| AuthRoutes.ReplacePassword | server/routes/auth.js:245-248 | the reset `UPDATE` replaces the hash and clears token and expiry on the row with that id only |
| AuthRoutes.Register | server/routes/auth.js:13-83 | the handler's new users table, reply and JWT are those of the register outcome: a bad body gives 400, a taken e-mail 400, else one new unverified user and 201 (500 if the mail fails) |
| AuthRoutes.Login | server/routes/auth.js:86-149 | the handler's reply and JWT are those of the login outcome (400 for an empty password first), and the table is unchanged |
| AuthRoutes.VerifyEmail | server/routes/auth.js:152-171 | the handler's new table and reply are those of the verify-email outcome |
| AuthRoutes.ForgotPassword | server/routes/auth.js:174-216 | the handler's new table and reply are those of the forgot-password outcome |
| AuthRoutes.ResetPassword | server/routes/auth.js:219-259 | the handler's new table and reply are those of the reset outcome |
| AuthRoutes.UserWithEmailFinds | server/routes/auth.js:30-31 | with unique e-mails, the `WHERE email = $1` lookup returns that e-mail's user |
| AuthRoutes.RegisterRefusesTakenEmail | server/routes/auth.js:30-37 | registering an e-mail already in the table gives 400 and leaves the store unchanged |
| AuthRoutes.RegisterAcceptsExactly | server/routes/auth.js:13-56 | the validators refuse the body (400) iff the password is shorter than 6, a trimmed name shorter than 2, or the user type neither client nor mechanic; registration succeeds iff the body is valid, the e-mail is new and the mail is sent; a valid fresh e-mail adds exactly one unverified user with that e-mail, type, hash and verification token |
| AuthRoutes.RegisterKeepsValid | server/routes/auth.js:29-52 | register keeps the store invariant: unique ids and e-mails, ids below the serial |
| AuthRoutes.LoginRejectsExactly | server/routes/auth.js:86-114 | login answers 400 iff the password is empty, before any lookup; otherwise it answers the shared 401 "invalid credentials" iff the e-mail is unknown or the password does not match its hash |
| AuthRoutes.LoginSucceedsExactly | server/routes/auth.js:86-129 | login succeeds iff the password is not empty and a user with that e-mail has a password hash that it matches and a verified e-mail (an empty password is refused whatever `compare` would say); the JWT then carries that user's id and type |
| AuthRoutes.LoginTokenAuthenticates | server/routes/auth.js:125-129 | the JWT login returns, sent as `Bearer <jwt>`, passes `authenticateToken` as the logged-in user |
| AuthRoutes.VerifyEmailIsOneShot | server/routes/auth.js:156-166 | verification succeeds iff some user holds the token, and a second use of the same token gives 400 |
| AuthRoutes.VerifyEmailKeepsValid | server/routes/auth.js:156-159 | verification keeps the store invariant |
| AuthRoutes.ForgotPasswordAnswersAlike | server/routes/auth.js:186-210 | with mail working, forgot-password answers the same 200 message whether or not the e-mail exists, and a known user then holds the token expiring at now + 3 600 000 ms |
| AuthRoutes.ForgotPasswordKeepsValid | server/routes/auth.js:199-205 | forgot-password keeps the store invariant |
| AuthRoutes.ResetAcceptedExactly | server/routes/auth.js:219-251 | reset succeeds iff the token is non-empty, the new password has at least 6 characters, and some user holds the token with an expiry strictly after now |
| AuthRoutes.ForgotThenResetWithinTheHour | server/routes/auth.js:199-251 | after forgot-password, reset with that token succeeds at any time before the expiry |
| AuthRoutes.ResetIsOneShot | server/routes/auth.js:232-251 | after a successful reset, the same token is refused whatever the password and time |
| AuthRoutes.ResetPasswordKeepsValid | server/routes/auth.js:245-248 | reset keeps the store invariant |
| AuthRoutes.RegisterVerifyLogin | server/routes/auth.js:13-149 | a fresh registration cannot log in until it is verified, and afterwards login returns the JWT for the new id and type |
| ClientVehicles.SnakeCase | server/routes/clients.js:161 | the column name derived from a body key contains no upper-case letter and is at least as long as the key |
| ClientVehicles.SnakeCaseKeepsLowerKeys | server/routes/clients.js:161 | a key with no upper-case letter is its own column name |
| ClientVehicles.CamelOfSnake | server/routes/clients.js:161 | for a key without `_`, turning the column back into camelCase gives the key: the renaming loses nothing |
| ClientVehicles.SnakeCaseInjective | server/routes/clients.js:161 | two keys without `_` that map to the same column are the same key |
| ClientVehicles.Kept | server/routes/clients.js:158-159 | the kept entries are body entries whose value is not null, and there are no more of them than in the body |
| ClientVehicles.Assignments | server/routes/clients.js:158-163 | there is one column assignment per kept body entry |
| ClientVehicles.IntColumn | server/routes/clients.js:178 | a parameter bound to `id` or `user_id` is stored iff it is a number in 0..2147483647 or a string Postgres reads as one, with that value |
| ClientVehicles.TextColumn | server/routes/clients.js:178 | a parameter bound to `license_plate` is stored as the string itself, or as the decimal text of a number |
| ClientVehicles.BuildSet | server/routes/clients.js:153-164 | the `forEach` builds exactly the `SET` clauses and values of the kept entries, numbered `$1` to `$n`, and `paramCount` equals their number |
| ClientVehicles.StatementBindsAssignments | server/routes/clients.js:158-176 | the k-th clause is `column = $k` and the k-th parameter is its value; `$(n+1)` holds the vehicle id and `$(n+2)` the user id; the parameter list has length n+2 |
| ClientVehicles.PlaceholdersDistinct | server/routes/clients.js:161-174 | the placeholders `$1` … `$(n+2)` are pairwise distinct, so every parameter is bound once |
| ClientVehicles.ClausesSnoc | server/routes/clients.js:158-164 | one more body key adds nothing when its value is null, and otherwise adds the clause numbered next and its value |
| ClientVehicles.ColumnsOf | server/routes/clients.js:171-176 | the `UPDATE` names one column per assignment |
| ClientVehicles.ReplaceVehicle | server/routes/clients.js:171-178 | the `UPDATE … WHERE id AND user_id` keeps the table's length and replaces only the matching row |
| ClientVehicles.CreateVehicle | server/routes/clients.js:43-118 | the handler's new state and reply are those of the create outcome: a bad body gives 400, the owner's plate again gives 400, otherwise one new row and 201 |
| ClientVehicles.UpdateVehicle | server/routes/clients.js:121-203 | the handler's new state and reply are those of the update outcome: 400 on an invalid body, 500 on a bad id, 404 unless the user owns the vehicle, 400 when every value is null, else the `UPDATE` with values converted as Postgres converts text (UpdateGuards, OwnedUpdate, IntColumn, TextColumn) |
| ClientVehicles.DeleteVehicle | server/routes/clients.js:206-241 | the handler's new state and reply are those of the delete outcome |
| ClientVehicles.CreateRefusesOwnersPlate | server/routes/clients.js:77-85 | creation is refused with 400 iff the same owner already has a vehicle with that plate |
| ClientVehicles.CreateKeepsInvariants | server/routes/clients.js:77-92 | creation keeps the store invariant, plates unique per owner, and every record naming an existing vehicle |
| ClientVehicles.AssignmentsEmpty | server/routes/clients.js:158-168 | there is nothing to assign iff every body value is null |
| ClientVehicles.UpdateGuards | server/routes/clients.js:143-168 | update gives 404 iff the user owns no vehicle with that id, and 400 "nothing to update" iff it owns one and every body value is null |
| ClientVehicles.OwnedUpdate | server/routes/clients.js:153-178 | for an owned vehicle and a non-empty body, the outcome is the executed `UPDATE` with the row replaced, or 500 when the database refuses it |
| ClientVehicles.SingleAssignment | server/routes/clients.js:158-163 | a one-key body assigns its value to the snake_case column of that key |
| ClientVehicles.UpdateCanReassignOwner | server/routes/clients.js:158-178 | the builder takes any body key, so a `userId` key, given as a number or as its text, moves the vehicle to another existing user |
| ClientVehicles.UpdateSkipsPlateCheck | server/routes/clients.js:121-178 | update does not repeat the plate check, so a `licensePlate` key, given as a string or as a number, can give the owner two vehicles with the same plate |
| ClientVehicles.SameColumnTwiceFails | server/routes/clients.js:158-178 | two keys mapping to the same column make the `UPDATE` fail with 500 |
| ClientVehicles.UpdateKeepsInvariants | server/routes/clients.js:144-178 | an update that does not assign `id` keeps the store invariant and keeps records naming existing vehicles |
| ClientVehicles.DeleteGuard | server/routes/clients.js:211-235 | delete succeeds iff the user owns the vehicle and no record references it; the row is then gone and the invariants still hold |
| ClientMaintenance.Decide | server/routes/clients.js:419-424 | the decision `UPDATE … WHERE id AND client_id` keeps the table's length and rewrites only matching rows |
| ClientMaintenance.ApproveMaintenance | server/routes/clients.js:389-475 | the handler's new state and reply are those of the approve outcome |
| ClientMaintenance.RejectMaintenance | server/routes/clients.js:478-566 | the handler's new state and reply are those of the reject outcome |
| ClientMaintenance.ReviewMaintenance | server/routes/clients.js:569-635 | the handler's new state and reply are those of the review outcome |
| ClientMaintenance.DecideTouchesOne | server/routes/clients.js:419-424 | with unique ids, the decision rewrites exactly the client's record with that id |
| ClientMaintenance.ApproveOnlyPending | server/routes/clients.js:404-424 | approve succeeds iff the client's record with that id is pending; every other row is unchanged and that one becomes approved with the approval date |
| ClientMaintenance.RejectOnlyPending | server/routes/clients.js:493-514 | reject succeeds iff the client's record is pending; every other row is unchanged and that one becomes rejected with the trimmed reason |
| ClientMaintenance.ApprovedIsFinal | server/routes/clients.js:414-416 | once approved, a record can be neither approved again nor rejected: both give 400 and change nothing |
| ClientMaintenance.DecidedRecord | server/routes/clients.js:419-424 | a decision keeps the invariant, and the client's record afterwards is the decided record |
| ClientMaintenance.ReviewOnceOnApproved | server/routes/clients.js:572-617 | a review is created iff the rating is 1 to 5, the client's record is approved, and no review by this client exists for it; it keeps the invariant, and after a success the same review is refused with 400 "already reviewed" |
| Store.IdParam | server/middleware/auth.js:42-64 | an `:id` the database accepts as an `integer` is a non-empty string of digits whose value is at most 2147483647; anything else makes the query throw |
| Store.IdParamOfId | server/middleware/auth.js:42-64 | the decimal text of an id parses back to that id when it fits an `integer`, and is refused when it is larger |
| Pagination.PageOrDefault | server/routes/clients.js:247 | a missing `page` defaults to 1, and a given one is used as is |
| Pagination.LimitOrDefault | server/routes/clients.js:247 | a missing `limit` defaults to 10, and a given one is used as is |
| Pagination.Window | server/routes/clients.js:270-273 | `LIMIT`/`OFFSET` returns the rows from the offset on, at most `limit` of them, in order |
| Pagination.Pages | server/routes/clients.js:310 | `Math.ceil(total / limit)` is a number iff the limit is positive |
| Pagination.PagesIsLeastCover | server/routes/clients.js:310 | the page count is the least number of pages of `limit` rows that hold every row |
| Pagination.RowOnItsPage | server/routes/clients.js:247-248 | the k-th row appears, at index k mod limit, on page k / limit + 1, which lies within the page count |
| Pagination.Paginate | server/routes/clients.js:247-311 | a negative limit or offset makes the query fail; otherwise the page holds the window at offset (page-1)·limit with the total and page count |
| RecordListing.BuildQuery | server/routes/clients.js:250-286 | the listing filters on the caller's own side (`mr.client_id = $1` here, `mr.mechanic_id = $1` in the same builder at server/routes/mechanics.js:368-403), then `mr.status = $2` when a status is given; `LIMIT`/`OFFSET` take the next two placeholders, and the count query's parameters are the listing's minus those two |
| RecordListing.LaterFirstTotalPreorder | server/routes/clients.js:270 | `ORDER BY mr.created_at DESC` is a total preorder |
| RecordListing.ListMaintenance | server/routes/clients.js:244-318 | the reply of the client listing (and of the mechanic listing, server/routes/mechanics.js:359-436, on the other side) is the listing outcome: the page of the filtered, newest-first records, the total and the page count |
| RecordListing.RecordsExact | server/routes/clients.js:250-270 | the listed rows are exactly the records of the owner (and status) whose joins succeed, each once, newest first |
| RecordListing.TotalCountsListedRows | server/routes/clients.js:276-289 | when every record's joins succeed, the count query's total equals the number of listed rows |
| RecordListing.EveryRecordOnItsPage | server/routes/clients.js:247-273 | every listed record appears on the page number given by its position |
| MechanicRoutes.ProfileView | server/routes/mechanics.js:45-55 | the profile query returns the mechanic's own profile joined with its own user row, and finds nothing (404) iff the mechanic has no profile or no user row |
| MechanicRoutes.GetProfile | server/routes/mechanics.js:41-88 | the handler returns the profile view of the store |
| MechanicRoutes.RewriteForm | server/routes/mechanics.js:133-142 | the profile `UPDATE … WHERE user_id` keeps the table's length |
| MechanicRoutes.SaveProfile | server/routes/mechanics.js:91-170 | the handler's new state and reply are those of the profile upsert outcome |
| MechanicRoutes.SaveProfileKeepsOne | server/routes/mechanics.js:125-164 | the upsert keeps the invariant (at most one profile per user); it answers 201 iff the user had no profile and 200 otherwise |
| MechanicRoutes.SaveProfileHoldsForm | server/routes/mechanics.js:125-164 | after the upsert the user's profile holds the submitted form |
| MechanicRoutes.SaveProfileKeepsOthers | server/routes/mechanics.js:133-158 | other users' profiles are untouched; the user's profile is either a fresh one with zero ratings and unverified, or the old one with only the form replaced |
| MechanicRoutes.RewriteKeepsValid | server/routes/mechanics.js:133-142 | rewriting a profile's form keeps the store invariant |
| MechanicRoutes.SaveProfileIdempotent | server/routes/mechanics.js:125-164 | saving the same form twice changes nothing the second time and answers 200 |
| MechanicRoutes.SaveThenView | server/routes/mechanics.js:41-164 | after the upsert, the profile GET of an existing user returns the saved form |
| MechanicRoutes.NameSplitRoundTrip | server/routes/mechanics.js:226 | the first name has no space; first name, a space and last name give back the client name; a name without a space is all first name with an empty last name |
| MechanicRoutes.ClientFor | server/routes/mechanics.js:211-229 | the client step either leaves the store unchanged or appends exactly one new client user, and the returned id is a user with the form's e-mail |
| MechanicRoutes.VehicleFor | server/routes/mechanics.js:231-249 | the vehicle step either leaves the store unchanged or appends exactly one new vehicle, and the returned id is a vehicle of that client with the form's plate |
| MechanicRoutes.FindOrCreateClient | server/routes/mechanics.js:211-229 | the handler's client step is the client find-or-create function |
| MechanicRoutes.FindOrCreateVehicle | server/routes/mechanics.js:231-249 | the handler's vehicle step is the vehicle find-or-create function |
| MechanicRoutes.RegisterMaintenance | server/routes/mechanics.js:173-309 | the handler's new state, reply and notification are those of the register outcome |
| MechanicRoutes.ClientForKeepsValid | server/routes/mechanics.js:211-229 | the client step keeps the store invariant |
| MechanicRoutes.VehicleForKeepsValid | server/routes/mechanics.js:231-249 | the vehicle step keeps the invariant and plates unique per owner |
| MechanicRoutes.RegisterKeepsInvariants | server/routes/mechanics.js:211-260 | registration keeps the store invariant, plates unique per owner, and every record naming an existing vehicle |
| MechanicRoutes.RegisterKeepsRows | server/routes/mechanics.js:211-260 | registration appends exactly one record, at most one user and at most one vehicle, keeps every existing row, and leaves reviews, profiles and evidence alone |
| MechanicRoutes.RegisterAddsRecord | server/routes/mechanics.js:252-293 | the new record is pending, belongs to the mechanic, is titled `service - brand model`, and names a client with the form's e-mail and that client's vehicle with the form's plate; the notification goes to that e-mail with the profile's business name or `Mecânico` |
| MechanicRoutes.RegisterFindsClientByEmail | server/routes/mechanics.js:213-229 | a user with the form's e-mail, whatever its role, becomes the record's client and no user is added; otherwise exactly one new client user is appended |
| MechanicRoutes.CreatedClientCannotLogIn | server/routes/mechanics.js:222-227 | a client created here has no password hash, so its login with any non-empty password makes bcrypt throw and answers 500 (an empty one gets the validator's 400) |
| MechanicRoutes.RegisterTwiceReusesClientAndVehicle | server/routes/mechanics.js:211-249 | registering the same form again adds no user and no vehicle, and the second record has the same client and vehicle as the first |
| EvidenceUpload.LastIndex | server/routes/mechanics.js:29 | the last occurrence of a character: it is at that index and not after it; or the character is absent |
| EvidenceUpload.TrimSlashes | server/routes/mechanics.js:29 | `path.extname` first drops trailing slashes: the result is a prefix of the path not ending in `/` |
| EvidenceUpload.BaseName | server/routes/mechanics.js:29 | the base name has no `/` |
| EvidenceUpload.ExtName | server/routes/mechanics.js:29 | `path.extname` is empty or a `.` followed by no further `.` or `/` |
| EvidenceUpload.ExtNameOfStem | server/routes/mechanics.js:29 | the extension of `stem.e` is `.e` for a non-empty stem without `/` |
| EvidenceUpload.FilterByExtension | server/routes/mechanics.js:27-37 | a file named `stem.e` passes the filter iff the lower-cased `e` and the mimetype both contain one of jpeg, jpg, png, gif, pdf, doc, docx (the `allowedTypes` pattern) |
| EvidenceUpload.DocxAlternativeRedundant | server/routes/mechanics.js:28 | the pattern accepts exactly the strings containing jpeg, jpg, png, gif, pdf or doc; the `docx` alternative adds nothing |
| EvidenceUpload.MsWordRefused | server/routes/mechanics.js:27-37 | a file with mimetype `application/msword` is refused, because that string contains none of the alternatives |
| EvidenceUpload.EvidenceRows | server/routes/mechanics.js:334-342 | one evidence row per uploaded file |
| EvidenceUpload.InsertEvidence | server/routes/mechanics.js:334-344 | the per-file inserts append exactly the evidence rows of the files, with consecutive fresh ids |
| EvidenceUpload.UploadEvidence | server/routes/mechanics.js:312-356 | the handler's new state and reply are those of the evidence outcome |
| EvidenceUpload.EvidenceOnlyOnOwnRecord | server/routes/mechanics.js:315-332 | the upload succeeds iff multer accepts the files (at most 10, 5 MB each, filter passed), there is at least one, and the record with that id is the mechanic's; any failure changes nothing; the invariant is kept |
| EvidenceUpload.EvidenceRowsDescribeFiles | server/routes/mechanics.js:334-342 | after a success, only the evidence table grew, by one row per file, each naming the record, the mechanic and that file's name, type, size and path |
| EvidenceUpload.EvidenceRowsKeepValid | server/routes/mechanics.js:334-342 | appending the evidence rows keeps the store invariant |
| MechanicSearch.Conditions | server/routes/maintenance.js:145-167 | at most four filters, one for each of city, state, service and rating that is given, in that order |
| MechanicSearch.Params | server/routes/maintenance.js:148-166 | one parameter per filter |
| MechanicSearch.WhereSqlAppend | server/routes/maintenance.js:145-167 | the conditions of two filter lists, numbered consecutively, are the first list's conditions followed by the second's numbered from where the first stopped |
| MechanicSearch.WhereSqlSnoc | server/routes/maintenance.js:145-167 | one more filter appends its condition with the next placeholder number |
| MechanicSearch.WhereSqlNumbersConsecutively | server/routes/maintenance.js:145-167 | the k-th filter's condition carries placeholder `$(first+k)`: the numbering has no gaps and no repeats |
| MechanicSearch.ParamsSnoc | server/routes/maintenance.js:145-167 | one more filter appends exactly its parameter |
| MechanicSearch.AppendFilter | server/routes/maintenance.js:145-149 | one `if` block: the query gains the filter's condition with the next placeholder and the parameters gain its value |
| MechanicSearch.Filters | server/routes/maintenance.js:135-167 | the four `if` blocks build the verified-only query followed by the given filters' conditions, numbered `$1` onwards, and push their parameters in the same order |
| MechanicSearch.BuildSearch | server/routes/maintenance.js:132-206 | the search query is the filtered query followed by `ORDER BY … LIMIT $(n+1) OFFSET $(n+2)`, with parameters the filters' values, then limit and offset; the count query restarts numbering at 1 and has the same filters and the same parameters without limit and offset |
| MechanicSearch.BetterRatedTotalPreorder | server/routes/maintenance.js:169 | `ORDER BY average_rating DESC, total_ratings DESC` is a total preorder |
| MechanicSearch.SearchMechanics | server/routes/maintenance.js:130-242 | the handler's reply is the search outcome: the page of matching mechanics with the total and page count |
| MechanicSearch.ResultsExact | server/routes/maintenance.js:135-172 | the listed profiles are exactly the verified profiles with a user row that meet every given filter, each once, best rated first |
| MechanicSearch.FiltersOnlyNarrow | server/routes/maintenance.js:145-167 | a profile listed with an extra filter is listed without it and meets the extra filter |
| MechanicSearch.ToLowerIdempotent | server/routes/maintenance.js:147 | lower-casing twice is lower-casing once |
| MechanicSearch.LowerAll | server/routes/maintenance.js:147-153 | lower-casing a filter list lower-cases each filter in place |
| MechanicSearch.ConditionsLowered | server/routes/maintenance.js:145-155 | lower-casing the city and state query values gives the lower-cased filter list |
| MechanicSearch.LowerConditionHolds | server/routes/maintenance.js:147-153 | `LOWER(column) = LOWER($n)` holds for a value iff it holds for its lower-cased form |
| MechanicSearch.SearchIgnoresCase | server/routes/maintenance.js:145-155 | the search answers the same whatever the case of the city and state given |
| MechanicSearch.TotalCountsResults | server/routes/maintenance.js:175-209 | when every profile has a user row, the count query's total equals the number of matching mechanics |
| MaintenanceRoutes.GetApproval | server/routes/maintenance.js:7-72 | the handler's reply is the approval lookup of the store |
| MaintenanceRoutes.ApprovalShownIffPending | server/routes/maintenance.js:15-64 | the page is shown iff the record with the token's id is pending and its vehicle, client and mechanic exist, and otherwise the reply is 404; it shows that record with its vehicle, its client, exactly its evidence, and the business name as mechanic name when one is set |
| MaintenanceRoutes.DecidedNoLongerShown | server/routes/maintenance.js:27-33 | after a client approves or rejects a record, its approval link answers 404 |
| MaintenanceRoutes.DecidedLeavesNonePending | server/routes/maintenance.js:27 | after a decision, no record with that id is still pending |
| MaintenanceRoutes.JoinReviews | server/routes/maintenance.js:261-266 | the inner joins yield at most one card per review |
| MaintenanceRoutes.NewerCardTotalPreorder | server/routes/maintenance.js:268 | `ORDER BY r.created_at DESC` is a total preorder |
| MaintenanceRoutes.ListReviews | server/routes/maintenance.js:245-305 | the handler's reply is the review listing outcome |
| MaintenanceRoutes.JoinedCardsComeFromReviews | server/routes/maintenance.js:261-291 | every card is one of the reviews, with its id, rating, comment and date and its client's full name |
| MaintenanceRoutes.JoinedReviewsListed | server/routes/maintenance.js:261-266 | every review whose client and record exist yields a card |
| MaintenanceRoutes.ReviewRowsExact | server/routes/maintenance.js:261-269 | the listed cards are exactly the public reviews of the profile's mechanic whose client and record exist, newest first |
| MaintenanceRoutes.ReviewsShownIffProfile | server/routes/maintenance.js:251-282 | 404 iff no profile has that id; a page is shown iff the profile exists and the window is valid, and its total counts that mechanic's public reviews |
| MaintenanceRoutes.SentReviewCounts | server/routes/clients.js:611-617 | a review sent by a client raises the reviewed mechanic's public review count by one and leaves every other mechanic's count unchanged |
| MaintenanceRoutes.JoinKeepsAll | server/routes/maintenance.js:262-265 | when every review's client and record exist, the joins keep every review |
| MaintenanceRoutes.TotalCountsReviewRows | server/routes/maintenance.js:274-282 | when every review's client and record exist, the count query's total equals the number of listed reviews |
| FipeTables.UpsertRow | server/utils/fipeCache.js:92-97 | after `INSERT … ON CONFLICT DO UPDATE` the written row is in the table |
| FipeTables.UpsertRowMembers | server/utils/fipeCache.js:92-97 | the upsert adds only the written row, and keeps every row with another key |
| FipeTables.UpsertRowKeys | server/utils/fipeCache.js:92-97 | the keys after the upsert are the old keys plus the written one |
| FipeTables.UpsertRowUnique | server/utils/fipeCache.js:94 | the upsert keeps keys unique, as the `ON CONFLICT` key constraint does |
| FipeTables.Lookup | server/utils/fipeCache.js:116 | the lookup by key finds something iff a row has that key, and what it finds is that row's data |
| FipeTables.LookupUpsert | server/utils/fipeCache.js:92-97 | after an upsert, the written key reads back the written data and every other key reads as before |
| FipeTables.UpsertSameKeyTwice | server/utils/fipeCache.js:92-97 | upserting the same code twice is the same as upserting the last one: one row, holding the last name written |
| FipeCache.LatestUpdate | server/utils/fipeCache.js:15-21 | `ORDER BY last_update DESC LIMIT 1` finds nothing iff the run log is empty, and otherwise the greatest `last_update` of a run |
| FipeCache.NeedsUpdate | server/utils/fipeCache.js:13-33 | a refresh is due when the read fails or the log is empty, and otherwise iff every run started at least 24 hours (86 400 000 ms) before now |
| FipeCache.Cleared | server/utils/fipeCache.js:70-82 | deletes values, years, models and brands in that order: a table is emptied iff its delete and every earlier one succeed, the error is that of the first failing delete (none iff all succeed), the run log is untouched and the invariant kept |
| FipeCache.Children | server/utils/fipeCache.js:201-205 | the rows under a parent are a selection of the table |
| FipeCache.ChildrenMembers | server/utils/fipeCache.js:201-205 | `WHERE brand_id = …` selects exactly the rows directly under that parent |
| FipeCache.CrawlModelsStep | server/utils/fipeCache.js:208-224 | the model loop runs one model's step and stops at its error, or goes on with the rest |
| FipeCache.CrawlBrandsStep | server/utils/fipeCache.js:195-225 | the brand loop runs one brand's step and stops at its error, or goes on with the rest |
| FipeCache.FipeCacheService.constructor | server/utils/fipeCache.js:8-10 | the service starts on the given tables |
| FipeCache.FipeCacheService.StartUpdate | server/utils/fipeCache.js:36-45 | the tables become the started state: a `running` run logged at now, or unchanged when the insert fails (the error is swallowed) |
| FipeCache.FipeCacheService.FinishUpdate | server/utils/fipeCache.js:48-67 | the last run gets the status `error` or `completed`, the counters and the message; a failing update is swallowed |
| FipeCache.FipeCacheService.ClearOldData | server/utils/fipeCache.js:70-82 | the four deletes, values first and brands last, leave the tables and return the error that `Cleared` states: a failing delete stops the rest and keeps those already run |
| FipeCache.FipeCacheService.UpsertItems | server/utils/fipeCache.js:92-97 | the `for…of` upserts the listed items one by one and stops at the first failing statement |
| FipeCache.FipeCacheService.FetchAndSaveBrands | server/utils/fipeCache.js:85-104 | the brands are upserted and their number returned; a failure is an error |
| FipeCache.FipeCacheService.FetchAndSaveModels | server/utils/fipeCache.js:107-126 | the brand's models are upserted and counted; a failure counts 0 |
| FipeCache.FipeCacheService.FetchAndSaveYears | server/utils/fipeCache.js:129-148 | the model's years are upserted and counted; a failure counts 0 |
| FipeCache.FipeCacheService.FetchAndSaveValue | server/utils/fipeCache.js:151-176 | the value is upserted on its year row and counts 1; any failure counts 0 |
| FipeCache.FipeCacheService.PriceYears | server/utils/fipeCache.js:220-223 | the inner loop prices each listed year and adds up the counts |
| FipeCache.FipeCacheService.WalkModel | server/utils/fipeCache.js:209-223 | one model: fetch its years, read back at most 3 by name, price them |
| FipeCache.FipeCacheService.WalkModels | server/utils/fipeCache.js:208-224 | the model loop in order, stopping at the first fatal read-back error |
| FipeCache.FipeCacheService.WalkBrand | server/utils/fipeCache.js:196-224 | one brand: fetch its models, read back at most 5 by name, walk them |
| FipeCache.FipeCacheService.WalkBrands | server/utils/fipeCache.js:195-225 | the brand loop in order, stopping at the first fatal error |
| FipeCache.FipeCacheService.PerformFullUpdate | server/utils/fipeCache.js:179-236 | the new tables and the result are those of the refresh: start, clear, save brands, walk at most 10 brands by name, finish; the counters, or the error rethrown |
| FipeCacheProperties.SaveRowsFacts | server/utils/fipeCache.js:114-119 | the upsert loop adds only children of an existing parent, loses no key, keeps keys unique, and completes when no statement fails |
| FipeCacheProperties.ValueSavedFacts | server/utils/fipeCache.js:151-176 | saving a value adds only rows of that brand, touches no model or year, counts at most 1, and keeps the invariant |
| FipeCacheProperties.YearsSavedFacts | server/utils/fipeCache.js:129-148 | saving years adds only rows of that brand, touches no model or value, and keeps the invariant |
| FipeCacheProperties.ModelsSavedFacts | server/utils/fipeCache.js:107-126 | saving models adds only rows of that brand and keeps the invariant; a failed fetch changes nothing and counts 0 |
| FipeCacheProperties.BrandsSavedFacts | server/utils/fipeCache.js:85-104 | saving brands touches only the brand table and keeps the invariant; the count is the length of the upstream list when no upsert fails, and a failed fetch is an error that changes nothing |
| FipeCacheProperties.CrawlYearsFacts | server/utils/fipeCache.js:220-223 | pricing years adds only that brand's values and at most one value per year |
| FipeCacheProperties.ModelWalkFacts | server/utils/fipeCache.js:209-223 | one model's walk adds only that brand's rows and at most 3 values |
| FipeCacheProperties.ModelStepFacts | server/utils/fipeCache.js:209-223 | one model's step adds only that brand's rows, at most 3 values, and keeps the invariant |
| FipeCacheProperties.CrawlModelsFacts | server/utils/fipeCache.js:208-224 | the model loop adds only that brand's rows and at most 3 values per model |
| FipeCacheProperties.CrawlModelsCompletes | server/utils/fipeCache.js:208-224 | when no read-back fails, the model loop ends without error: per-model failures are swallowed |
| FipeCacheProperties.BrandWalkFacts | server/utils/fipeCache.js:197-224 | one brand's walk adds only that brand's rows and at most 15 values |
| FipeCacheProperties.BrandStepFacts | server/utils/fipeCache.js:197-224 | one brand's step adds only that brand's rows, at most 15 values, and keeps the invariant |
| FipeCacheProperties.CrawlBrandsFacts | server/utils/fipeCache.js:195-225 | the brand loop leaves the run log and brands alone and adds at most 15 values per brand |
| FipeCacheProperties.BrandWalkCompletes | server/utils/fipeCache.js:197-224 | when no read-back fails, one brand's walk ends without error |
| FipeCacheProperties.BrandStepCompletes | server/utils/fipeCache.js:197-224 | when no read-back fails, one brand's step ends without error |
| FipeCacheProperties.CrawlBrandsCompletes | server/utils/fipeCache.js:195-225 | when no read-back fails, the brand loop ends without error |
| FipeCacheProperties.FailedBrandStepIsEmpty | server/utils/fipeCache.js:197-205 | a brand whose model fetch fails, with no rows of its own, leaves every table unchanged and adds 0 models, 0 years and 0 values to the counters; its step fails only with its model read-back's error |
| FipeCacheProperties.OtherBrandStepKeepsNoRows | server/utils/fipeCache.js:196-224 | walking one brand adds no model, year or value rows under any other brand |
| FipeCacheProperties.CrawlBrandsSkipsFailedBrand | server/utils/fipeCache.js:195-225 | a brand whose model fetch fails gets no model, year or value rows during the loop |
| FipeCacheProperties.CrawledFacts | server/utils/fipeCache.js:185-225 | the crawl leaves the run log alone, prices at most 10 × 5 × 3 values, and keeps the invariant |
| FipeCacheProperties.CrawledSucceeds | server/utils/fipeCache.js:185-225 | when the brand list arrives and no delete, brand upsert or read-back fails, the crawl succeeds and counts the brands listed upstream |
| FipeCacheProperties.RefreshIsBoundedAndKeepsShape | server/utils/fipeCache.js:179-236 | a refresh prices at most 150 values and keeps the invariant |
| FipeCacheProperties.CrawlListIsFirstByName | server/utils/fipeCache.js:191-195 | the brands walked are min(#brands, 10) saved brands, in name order, and no brand left out sorts before one walked |
| FipeCacheProperties.ByNameTotalPreorder | server/utils/fipeCache.js:191 | `ORDER BY nome` is a total preorder |
| FipeCacheProperties.FailedBrandLeavesNoRows | server/utils/fipeCache.js:185-205 | after a refresh that cleared the tables, a brand whose model fetch failed has no model, year or value rows |
| FipeCacheProperties.OnlyOuterFailuresAreFatal | server/utils/fipeCache.js:185-229 | with the brand list, the deletes, brand upserts and read-backs succeeding, the refresh succeeds whatever the model, year and value fetches do; it counts the listed brands and logs one completed run |
| FipeCacheProperties.BrandListFailureIsFatal | server/utils/fipeCache.js:185-188 | a failed brand fetch is rethrown with zero counters and empty tables, and the run is logged with status `error` and the message |
| FipeCacheProperties.ClearFailureIsFatal | server/utils/fipeCache.js:70-82 | a failing delete is rethrown by the refresh with its message and zero counters; the tables deleted before it are empty, the later ones keep their rows, and the run is logged with status `error` and the message |
| FipeCacheProperties.BrandReadBackFailureIsFatal | server/utils/fipeCache.js:197-205 | a failing read-back of a brand's models ends its step with that error, keeping the saved models and their count, with no years or values added |
| FipeCacheProperties.ModelReadBackFailureIsFatal | server/utils/fipeCache.js:207-217 | a failing read-back of a model's years ends the model loop with that error, keeping the saved years, with no values added |
| FipeCacheProperties.ReadBackFailureIsFatal | server/utils/fipeCache.js:179-236 | when the outer steps succeed and a brand is listed, a model read-back failing with a message makes the whole refresh rethrow it, and the run is logged with status `error` and the message |
| FipeCacheProperties.LostStartOverwritesPreviousRun | server/utils/fipeCache.js:36-66 | when the start insert fails silently, finishing overwrites the previous run's status and counters and keeps its start time |
| FipeCacheProperties.RecordedTotalsMatchOutcome | server/utils/fipeCache.js:179-236 | when the log writes succeed, the refresh logs one run started at now holding the counters and the error; its status is `completed` when the refresh succeeds or its message is empty, and `error` when it fails with a non-empty message |
| FipeCacheProperties.RefreshDueAfterOneDay | server/utils/fipeCache.js:19-28 | after one run, no refresh is due one millisecond before 24 hours have passed, and one is due at exactly 24 hours |
| FipeReaders.ModelYears | server/utils/fipeCache.js:242 | the `ano_modelo` column lists each value row's model year, in table order |
| FipeReaders.GetYears | server/utils/fipeCache.js:239-249 | `getYears` throws iff the query fails |
| FipeReaders.GetBrandsByYear | server/utils/fipeCache.js:252-269 | `getBrandsByYear` throws iff the query fails |
| FipeReaders.GetModelsByYearAndBrand | server/utils/fipeCache.js:272-288 | `getModelsByYearAndBrand` throws iff the query fails |
| FipeReaders.GetValueByYearBrandModel | server/utils/fipeCache.js:291-312 | a failing query is rethrown |
| FipeReaders.GetCacheStats | server/utils/fipeCache.js:315-331 | `getCacheStats` throws iff the query fails |
| FipeReaders.GetYearsDistinctDescending | server/utils/fipeCache.js:241-244 | the years listed are exactly the model years of the cached values, each once, in strictly descending order |
| FipeReaders.GetBrandsByYearExact | server/utils/fipeCache.js:254-264 | the brands listed are exactly the cached brands with a priced value of that model year under them, sorted by name |
| FipeReaders.GetModelsByYearAndBrandExact | server/utils/fipeCache.js:274-283 | the models listed are exactly the brand's cached models with a priced value of that model year, sorted by name |
| FipeReaders.GetValueNotFoundExactly | server/utils/fipeCache.js:293-307 | `Valor não encontrado` is thrown iff no joined value row has that model year, brand and model; otherwise the first matching row is returned |
| FipeReaders.ValidValuesJoined | server/utils/fipeCache.js:294-298 | in a consistent cache every value row survives the joins to its year, model and brand |
| FipeReaders.SavedValueIsReadable | server/utils/fipeCache.js:151-176 | a value saved by `fetchAndSaveValue` can be read back by model year, brand and model, and its year is listed by `getYears` |
| FipeReaders.ClearedStatsAreEmpty | server/utils/fipeCache.js:70-82 | after a successful clear, the statistics count zero brands, models, years and values and keep the last update time |
| FipeService.Served | server/utils/fipe.js:30-47 | a hit answers the cached data; otherwise the upstream body, or the fixed message when the request fails |
| FipeService.FipeApiCache.constructor | server/utils/fipe.js:7-11 | the cache starts empty |
| FipeService.FipeApiCache.GetCached | server/utils/fipe.js:14-20 | the lookup answers the stored data iff an entry exists and `now - timestamp < 24h` |
| FipeService.FipeApiCache.SetCache | server/utils/fipe.js:22-27 | the key now maps to the data stamped with now; other keys are unchanged; the key list gains the key if it is new |
| FipeService.FipeApiCache.ClearCache | server/utils/fipe.js:164-167 | the map and its key list are empty |
| FipeService.FipeApiCache.GetCacheStats | server/utils/fipe.js:170-178 | `size` is the number of entries and equals the number of keys listed |
| FipeService.FipeApiCache.CacheThenFetch | server/utils/fipe.js:30-47 | the wrapper answers as a cached lookup does, and stores the fetched body on a miss |
| FipeService.FipeApiCache.GetCarBrandsByYear | server/utils/fipe.js:30-48 | cache-then-fetch under `car_brands_<year>` against the brand list, failing with `Erro ao buscar marcas de carros` |
| FipeService.FipeApiCache.GetCarModelsByYear | server/utils/fipe.js:51-69 | cache-then-fetch under `car_models_<brand>_<year>`, failing with `Erro ao buscar modelos de carros` |
| FipeService.FipeApiCache.GetCarYears | server/utils/fipe.js:72-87 | cache-then-fetch under `car_years_<brand>_<model>`, failing with `Erro ao buscar anos do modelo` |
| FipeService.FipeApiCache.GetCarValue | server/utils/fipe.js:90-105 | cache-then-fetch under `car_value_<brand>_<model>_<year>`, failing with `Erro ao buscar valor FIPE do veículo` |
| FipeService.DistinctKeysCount | server/utils/fipe.js:171-172 | a duplicate-free key list with the map's keys has the map's size |
| FipeService.StoredIsFreshForADay | server/utils/fipe.js:16-25 | data stored at t is returned at any query time in [t, t+24h) |
| FipeService.StoredExpiresAfterADay | server/utils/fipe.js:16-19 | data stored at t is no longer returned from t+24h on |
| FipeService.StoreLeavesOtherKeys | server/utils/fipe.js:22-27 | storing under one key leaves every other key's lookup unchanged |
| FipeService.ClearedCacheMisses | server/utils/fipe.js:164-165 | after clearing, every lookup misses |
| FipeService.HitIgnoresUpstream | server/utils/fipe.js:33-34 | on a hit the answer does not depend on the upstream and the cache is unchanged |
| FipeService.FalsyCachedBodyIsRefetched | server/utils/fipe.js:33-34 | a fresh but falsy cached body counts as a miss: it is refetched and overwritten |
| FipeService.FailedFetchKeepsCache | server/utils/fipe.js:44-47 | on a miss, a failed fetch answers the fixed message and leaves the cache unchanged |
| FipeService.MissIsServedFromCacheNextTime | server/utils/fipe.js:40-43 | after a miss fetched a truthy body, the next lookup within 24 hours is a hit, even when the upstream is down |
| Common.Filter | server/routes/maintenance.js:266-267 | a `WHERE` selection keeps exactly the rows that satisfy it and is no longer than the table (its order is FilterConcat's) |
| Common.FilterConcat | server/routes/maintenance.js:266-267 | filtering a concatenation is the concatenation of the filtered parts, so a selection keeps the rows' order |
| Common.Find | server/routes/auth.js:30-37 | a lookup answers a row that satisfies the condition, and answers nothing iff no row does |
| Common.Split | server/middleware/auth.js:6 | `split(' ')` gives at least one field, and no field contains the separator |
| Common.JoinSplit | server/routes/mechanics.js:226 | joining the fields of `split(' ')` with spaces gives back the string |
| Common.SplitJoin | server/routes/mechanics.js:226 | splitting space-joined fields without spaces gives back the fields |
| Common.SplitCountsSeparators | server/middleware/auth.js:6 | `split(' ')` has a second field iff the string contains a space |
| Common.NatToString | server/routes/clients.js:161 | the decimal text of a placeholder number is a non-empty string of digits |
| Common.ParseNatToString | server/routes/clients.js:161 | the decimal text of a number parses back to it |
| Common.PlaceholderInjective | server/routes/clients.js:161-174 | `$m` and `$n` are the same text only when m = n |
| Common.Trim | server/routes/clients.js:481 | `trim()` gives a slice of the input with only whitespace cut from either end, with no whitespace at its own ends, and empty only when the input is all whitespace |
| Common.ToLower | server/routes/maintenance.js:147 | `LOWER` maps every character to its lower-case form and keeps the length |
| Sorting.SortByPermutes | server/routes/maintenance.js:268 | `ORDER BY` returns a permutation of the rows |
| Sorting.SortBySorted | server/routes/maintenance.js:268 | `ORDER BY` on a total preorder returns the rows in that order |
| Sorting.Dedup | server/utils/fipeCache.js:242 | `DISTINCT` on sorted years keeps every value and no two neighbours are equal |
| Sorting.DedupStrictlyDescending | server/utils/fipeCache.js:242 | `DISTINCT … ORDER BY … DESC` gives a strictly descending list |

## Left out

- `server/utils/email.js`: the mails themselves are not modelled.
  - Register and forgot-password model only whether the mailer throws (`Services.mailFails`), which turns the reply into 500 after the row was written.
  - Registration by a mechanic returns the approval mail it asks for as a `Notice`.
  - The status mails of approve and reject are caught and ignored, so they change neither the tables nor the reply.
- `server/routes/auth.js:262-285` (the Google and Facebook placeholders, `GET /verify` and `/logout`) is not part of this model. These routes make no decision beyond the middleware.
- Some read-only routes only project joined rows and are not part of this model:
  - `GET /vehicles` (`server/routes/clients.js:10-40`);
  - the two maintenance detail routes (`server/routes/clients.js:321-386`, `server/routes/mechanics.js:439-501`);
  - `GET /stats` (`server/routes/maintenance.js:75-127`).
- `getVehicleByPlate` and `getValueHistory` (`server/utils/fipe.js:108-161`) are not part of this model. They return simulated data built with `Math.random` and floating-point arithmetic.
- `server/routes/vehicles.js`, `server/routes/fipe.js`, `server/config/database.js`, `server/index.js` and `scripts/update-fipe.js` are not part of this model. They are pass-through queries and wiring.
- express-validator rules, handler by handler. E-mails are compared as given: `isEmail` and `normalizeEmail` are not modelled anywhere.
  - `POST /register` (`server/routes/auth.js:13-19`): the password length, the trimmed name lengths and the user type are checked explicitly; the optional `isMobilePhone` is not modelled.
  - `POST /login` (`server/routes/auth.js:86-88`): the non-empty password is checked explicitly. A malformed e-mail reaches the lookup and gets the 401 instead of the validator's 400.
  - `POST /forgot-password` (`server/routes/auth.js:174-175`): no rule is modelled, so a malformed e-mail gets the 200 instead of the validator's 400.
  - `POST /reset-password` (`server/routes/auth.js:219-221`): the token's presence and the password length are checked explicitly.
  - Approve, reject and review (`server/routes/clients.js:389-392`, `478-481`, `569-573`): approve's only rule trims the optional notes; the trimmed rejection reason of five characters and the rating from 1 to 5 are checked explicitly. The rating arrives as an integer, so `isInt` on other text is not modelled.
  - Vehicle creation and update (`server/routes/clients.js:43-55`, `121-132`), the mechanic profile (`server/routes/mechanics.js:91-102`) and the mechanic's maintenance registration (`server/routes/mechanics.js:173-187`): the whole rule set is the boolean parameter `valid`; false answers 400 before any query.
- SQL execution is abstract:
  - Tables are sequences of rows, and serial ids come from one counter.
  - A statement the schema would refuse (a missing parent row, a column or type the table does not have) is an oracle or a failure parameter. The schema file is not part of this model.
  - Column defaults are assumed where the INSERT leaves a column out:
    - a new maintenance record is `pending` (`server/routes/mechanics.js:252-256`);
    - a new review is public (`server/routes/clients.js:612-616`);
    - a new mechanic profile starts with rating 0, 0 ratings, 0 services and unverified (`server/routes/mechanics.js:150-154`).
    RegisterAddsRecord, SentReviewCounts, SaveProfileKeepsOthers and the approve and reject flow rest on these defaults.
  - Connection failures are left out, except where the control flow depends on them: the FIPE refresh (`fault`), the readers' rethrow (`failure`) and the ownership middleware's 500 (`failure`).
- Time is an integer in milliseconds:
  - `now` stands for `Date.now()` and `CURRENT_TIMESTAMP`.
  - `created_at` is the time the row was written.
  - The ISO `timestamp` of `FipeService.getCacheStats` (`server/utils/fipe.js:176`) is left out.
- `Promise.all` in the evidence upload is modelled as inserts in file order. Concurrent requests, including a refresh running beside the readers, are not modelled.
- multer writes the files to disk before the handler runs, so a refused request leaves its files behind. The disk is not part of this model.
- MaintenanceRoutes.ApprovalLookup: the evidence is listed in table order, not by `created_at DESC` (`server/routes/maintenance.js:39`). The reviewed facts are membership, not order.
- MechanicSearch.Conditions: `parseFloat(rating)` is the oracle `parseRating` into integers, and the rating comparison is on integers. Floating-point ratings are not modelled.
- Common.ToLower: it folds ASCII letters only, while Postgres `LOWER` also folds accented letters.
- Store.IdParam: it accepts digit strings up to 2147483647 only. Postgres would also read an `:id` with a sign or surrounding blanks as an integer. Lemmas that name a row by its id take ids in that range; above it the handlers answer 500 (IdParamOfId, AuthMiddleware.OutOfRangeIdIsServerError).
- ClientVehicles.UpdateVehicle (through `Assign`, `IntColumn` and `TextColumn`):
  - Negative ids, integer text with a sign or surrounding blanks, and arrays and objects as values of `id`, `user_id` and `license_plate`, are refused with 500. Postgres would store a negative `integer`, and node-postgres would send an array as an array literal and an object as its JSON text.
  - The body's keys go into the SQL text unescaped (`server/routes/clients.js:161`, `171`). The model takes each key to name exactly one column, so a key carrying further SQL (`"color = 'x', user_id"`) is not modelled.
- Sorting.SortBy, Sorting.LexLeq: `ORDER BY nome` compares names code point by code point, as the C collation does. Under a locale collation (en_US sorts "Cadillac" before "CAOA Chery"), the ten brands walked (FipeCacheProperties.CrawlListIsFirstByName) and the order of FipeReaders.GetBrandsByYear and FipeReaders.GetModelsByYearAndBrand can differ.
  - Rows with equal sort keys (`created_at`, `average_rating`) keep table order, while Postgres leaves their order unspecified. RecordsExact, ReviewRowsExact and ResultsExact state that order.
  - FipeReaders.GetValueByYearBrandModel: the value query has no `ORDER BY` (`server/utils/fipeCache.js:293-305`), so Postgres may return any matching row. The model returns the first match in table order (GetValueNotFoundExactly).
- Common.Trim: `IsSpace` is ASCII whitespace only. JavaScript and the validator's `trim` also remove U+00A0, U+FEFF and the other Unicode spaces.
- Pagination.PageOrDefault: `page` and `limit` arrive as integers. Query strings that are not numbers (which make JavaScript compute `NaN`) are not modelled.
- FipeCache.NeedsUpdate: the floating-point `diffHours >= 24` is the integer comparison `now - lastUpdate >= 86400000`. These agree on millisecond timestamps.
- FipeCache.FipeCacheService.FinishUpdate: the run updated is the last one logged, which stands for `ORDER BY created_at DESC LIMIT 1`.
- JavaScript object key order is the order of the request body's entries, `Object.keys` in the `SET` builder.
- bcrypt, JWT signing and verification, and `crypto.randomBytes` are the parameters `hash`, `compare`, `sign`, `verify` and `token`.
- The axios calls to the FIPE API are the functions of `Env`, and the `upstream` parameter of `FipeService`.
