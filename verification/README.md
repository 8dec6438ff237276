# Pawspective backend: a verified model

The service is a REST backend for animal shelters on PostgreSQL. This project models the three
parts of it that carry real invariants, apart from the HTTP framework, and proves them in Dafny 4.11.

**Queries.** A filter, sort and page specification is compiled to SQL text and a separate parameter
list, by loops that consume one-shot binders (`QueryBuilder`). `SqlText` gives that text a syntax and a
reader, `SqlEval` a three-valued evaluator, in which ties in the order are left to the engine: a
statement has a set of admissible results. `Like` holds the escaping and the nondeterministic LIKE
matcher, `QueryMeaning` the theorem that compiling preserves meaning. The animal search
(`AnimalSearch`, `SearchPages`), the organization search (`OrganizationSearch`), the two hand-written
listings (`Listings`), the advertised filter options (`FilterOptions`) and the batched reads
(`BatchedReads`, `AnimalListings`) are built on it, with `Joins` and `Pages` between. The partial updates are a second
small compiler (`SqlUpdate`, `PartialUpdate`, `AccountUpdate`).

**Tables.** `Schema` has the tables and foreign keys, `Cascade` a DELETE as a set of pending actions
taken in any order, `Deletion` the method that takes them. `Statements` has single statements with the
checks the database makes, and `RowLaws` says of each table's own columns what these checks and a DELETE
amount to. `Calls` gives each service call's outcome and effect in closed form; `Services` carries the calls
out statement by statement and proves the two equal, and `CallLaws` says in terms of the rows who may do
what, what stands in the way, and which rows change how. `Runs` treats whole runs of undisturbed calls, `Interleaving`
runs in which the statements of different requests mix (`Undisturbed` ties the two together), `Overlaps` and `Ownership` what undisturbed calls
promise and mixed statements can break, with the exact condition, and `PendingReviews` the adopted animals a user has
still to review.

**Sessions.** `Jwt` builds and checks tokens over `Base64Url`, `Json` and `Decimal`. `Sessions` compares
the session table with an ideal store that remembers issued tokens and never cleans; `SessionRuns` extends
that to whole runs; `SessionCleaner` and `SessionLaws` draw the consequences; `RefreshRaces` runs any number of
refreshes of one token statement by statement; `SessionService` is the code that changes the table.

What the services take from outside is a parameter: clock readings (microseconds), random blocks, the
keyed hash and the token hash, the case folding of ILIKE, the order in which the database scans a table.

Some expectations turned out to hold only under a condition, which is then proved to be the exact one:

- An offset is narrowed to 32 bits, so a search answers with the requested page up to page number
  107374183 and not beyond (`SearchPages.SearchPageExactly`).
- A patch field given as its own "absent" sentinel is ignored by the repository
  (`PartialUpdate.UpdateIsPatchExactly`, `AccountUpdate.OrganizationUpdateIsPatchExactly`,
  `AccountUpdate.UserUpdateIsPatchExactly`). Of these sentinels requests can carry the animal's age -1 and
  breed -1 only: the handlers refuse blank names and emails (src/handlers/src/user_update_handler.cpp:63-77,
  src/handlers/src/org_update_handler.cpp:48-50, src/handlers/src/animal_update_handler.cpp:45), an
  organization's city is looked up before the write (src/services/src/organization_service.cpp:72-74), and a
  password hash is never empty.
- The organization search has no order, so its pages may overlap as soon as there are two
  (`OrganizationSearch.PagesMayOverlapExactly`).
- A search without filters hides ages outside 0 to 100 (`FilterOptions.DefaultFilterHidesExactly`).
- With distinct random blocks the cleaner is invisible at every token lifetime
  (`SessionCleaner.CleaningChangesNoAnswer`). Over runs in which two logins may draw the same 128-bit
  block it is invisible only if refresh tokens live at least a second
  (`SessionCleaner.CleanerInvisibleExactly`): with lifetime zero, two such logins within one second clash
  unless the cleaner ran between them.
- The token check accepts a token for up to a second after its expiry (`Jwt.TokenCheckOutlivesExpiry`),
  the session check does not.
- When the statements of different requests mix, adopted animals stay free of requests exactly as long as
  no statement adopts an animal with requests or files one for an adopted animal
  (`Overlaps.UnclaimedExactly`).
- Then, too, the adoptions of an animal are paid for, one each, by its being available at first and by
  resets, in every stretch of the run, exactly as long as no adoption is written late, to an animal no longer
  available (`Overlaps.AdoptionsPaidForExactly`); `Overlaps.SecondAcceptOverwrites` has two adoptions and no
  reset.
- Organizations and their users correspond one to one; with mixed statements, once no registration is in
  flight, the organizations without a user are exactly those a registration left behind, because its user was
  deleted before the link or was linked anew (`Ownership.UnownedExactly`; `Ownership.SecondLinkLeaves` is an
  instance).
- A refresh token is good for one refresh. Of any number of refreshes whose statements mix, exactly those
  succeed that validate in time and before the first of them revokes (`RefreshRaces.RefreshesExactly`); of two,
  both do exactly if their first statements are the first two (`RefreshRaces.TwoRefreshesExactly`).

Two more remarks on the query builder. A spent binder holds whatever the parameter store's move leaves, so a
second build from one filter may bind other values (`QueryMeaning.SecondBuildDiffers`); the repositories build
each filter anew. And the reader of clauses in `SqlText` understands column expressions without a clause word
standing alone in them, as all of the repository's are (`SqlText.ReadClauseText`).

## Model

| member | source | states |
|---|---|---|
| Like.EscapeForLike | src/utils/src/sql_builder.cpp:32-51 | the counting pass, the fast path without special characters and the copying loop all give the escaped text |
| Like.EscapedLength | src/utils/src/sql_builder.cpp:33-42 | the escaped text is longer by exactly the number of special characters, the size that is reserved |
| Like.UnescapeEscape | src/utils/src/sql_builder.cpp:44-50 | removing the escapes gives every input back |
| Like.EscapedBetweenPercents | src/utils/src/sql_builder.cpp:66-68 | for all texts: matching `%`, the escaped search text, `%` under the recursive LIKE matcher holds iff the search text is a contiguous part of the subject |
| Like.IlikeIsSubstringSearch | src/utils/src/sql_builder.cpp:82-89 | the same for ILIKE under any character folding that leaves `%`, `_` and the backslash alone: a folded substring search, both directions |
| Like.SearchPatternWellFormed | src/utils/src/sql_builder.cpp:82-89 | the pattern never ends in a lone escape, the one error the matcher knows |
| Like.EscapingNeededExactly | src/utils/src/sql_builder.cpp:32-51 | an unescaped text searches for itself, in every subject, iff it has no special character |
| SqlText.ReadClauseText | src/utils/src/sql_builder.cpp:76-136 | a clause the builder prints is read back as that clause, conditions, sort keys, LIMIT and OFFSET, iff no column expression has a word of the clause grammar standing alone in it |
| SqlText.Spelling | src/utils/src/sql_builder.cpp:74-134 | every fragment is spelled, letter for letter, as PostgreSQL reads it |
| SqlEval.ComparesExactly | src/utils/src/sql_builder.cpp:11-30 | each operator says of two numbers or texts what its sign says, and of NULL nothing |
| SqlEval.RowLeqExactly | src/utils/src/sql_builder.cpp:109-124 | two rows are in order iff the first sort key on which they differ puts the one before the other in its direction, numbers by size, texts by code point, NULL last when ascending |
| SqlEval.SortedOrderUnique | src/utils/src/sql_builder.cpp:109-124 | if the sort keys tell the rows apart, ORDER BY leaves one possible order |
| SqlEval.SortSorts | src/utils/src/sql_builder.cpp:109-124 | sorting by several keys, NULL greatest, gives a sorted permutation of the rows |
| SqlEval.WhereKeepsExactly | src/utils/src/sql_builder.cpp:76-107 | under three-valued logic a row is kept iff every AND-joined condition is true of it; UNKNOWN drops it |
| SqlEval.ExecuteSelect | src/utils/src/sql_builder.cpp:136 | whatever this engine answers is an admissible result of the statement, and it fails only if no result is |
| QueryBuilder.QueryFilter.RunBinder | src/utils/include/utils/sql_builder.hpp:20-23 | a binder pushes its value once and is spent, holding whatever the move leaves; nothing else in the filter changes |
| QueryBuilder.MakeIlike | src/utils/src/sql_builder.cpp:66-68 | an ILIKE condition holds the escaped text |
| QueryBuilder.AppendWhere | src/utils/src/sql_builder.cpp:74-107 | the WHERE text of all conditions and their values in order, or the first unknown field, with exactly the binders before it run |
| QueryBuilder.AppendOrderBy | src/utils/src/sql_builder.cpp:108-124 | the ORDER BY text of all sort specifications, or the first unknown sort field |
| QueryBuilder.AppendPage | src/utils/src/sql_builder.cpp:125-134 | the placeholders it writes after LIMIT and OFFSET are the numbers of parameters that hold exactly these two values, behind the ones bound before |
| QueryBuilder.BuildQueryClause | src/utils/src/sql_builder.cpp:70-137 | the loops over the binders produce the printed clause of the filter and its values, or the first unknown field; exactly the binders that were reached are spent |
| QueryMeaning.ThrowsExactly | src/utils/src/sql_builder.cpp:53-63 | a build fails iff some filter or sort field is missing from its own whitelist |
| QueryMeaning.CompilationPreservesMeaning | src/utils/src/sql_builder.cpp:70-137 | for every filter, sort and page over whitelisted fields, where the columns used have no clause word standing alone in them, and every table: the results the compiled text with its parameters allows are exactly those of filtering, sorting and slicing the rows directly |
| QueryMeaning.PlaceholdersLineUp | src/utils/src/sql_builder.cpp:77-134 | for all whitelisted fields: the text has one dollar sign for each parameter besides those of its columns; with self-contained columns it has the placeholders 1..n once each in reading order; parameter i is condition i's value, limit and offset come last |
| QueryMeaning.SecondBuildDiffers | src/utils/include/utils/sql_builder.hpp:20-23 | building again from a spent filter gives the same text, and the same parameters iff every binder still holds its value |
| Cascade.DeleteIsOrderIndependent | postgresql/schemas/postgres-db.sql:152-166 | however the foreign key actions and the user trigger are ordered, a finished DELETE leaves the same tables and never aborts |
| Cascade.DoomedIsLeastClosure | postgresql/schemas/postgres-db.sql:43-147 | the deleted rows are the least set that holds the root and is closed under CASCADE and the trigger |
| Cascade.StepShrinks | postgresql/schemas/postgres-db.sql:152-166 | every single action deletes a row or shortens the queue without queueing anew, so every DELETE finishes in whatever order |
| Cascade.SurvivorsKeepForeignKeys | postgresql/schemas/postgres-db.sql:43-147 | after the DELETE no reference dangles: SET NULL references into the deleted rows are cleared and all others still point to a row |
| Deletion.Tables.Delete | src/repositories/src/user_repository.cpp:158-163 | running pending actions one at a time until none is left leaves exactly the rows that do not go by their own columns, with the deleted organization or adopter cleared, and the affected count says whether the row was there |
| RowLaws.ForeignKeysHoldExactly | postgresql/schemas/postgres-db.sql:43-147 | the foreign keys hold iff every row of every table names, in its own columns, rows that are there |
| RowLaws.SoundRows | postgresql/schemas/postgres-db.sql:54-146 | sound tables: every row names rows that are there and has its enums given; no two users share an email, no two reviews or requests a user and an animal, no two sessions a hash; an animal with an adopter is adopted |
| RowLaws.InsertExactly | postgresql/schemas/postgres-db.sql:43-147 | an INSERT succeeds iff the enums are given, the rows named are there and no row clashes; then the row is added under an id of its own and no other changes |
| RowLaws.UpdateExactly | postgresql/schemas/postgres-db.sql:43-147 | so for an UPDATE of a row that is there, whose own old values are no clash |
| RowLaws.DeleteExactly | postgresql/schemas/postgres-db.sql:78-166 | from tables in which foreign keys hold, a DELETE of a user, organization, animal or leaf row takes exactly the rows that go by their columns, clears exactly the links to what went, and leaves no row naming an absent one |
| RowLaws.OrganizationTakesItsOwn | postgresql/schemas/postgres-db.sql:96 | posts and animals survive the deletion of an organization iff they are not its own; users and sessions survive it |
| RowLaws.UserTakesItsOwn | postgresql/schemas/postgres-db.sql:131-166 | sessions survive the deletion of a user iff they are not the user's; posts and animals iff not of the user's organization; no animal keeps the user as adopter |
| SqlUpdate.ReadUpdateText | src/repositories/src/animal_repository.cpp:201-206 | the text of an UPDATE with a SET list is read back as its table and assignments |
| SqlUpdate.EmptySetListRejected | src/repositories/src/animal_repository.cpp:201-206 | an UPDATE with an empty SET list is not a statement |
| PartialUpdate.SetList.AddFieldIf | src/repositories/src/animal_repository.cpp:163-166 | one step of the builder: texts and parameters grow together, or not at all |
| PartialUpdate.BuildAnimalUpdate | src/repositories/src/animal_repository.cpp:156-206 | the builder's statement and parameters are those of the list of given columns, in order |
| PartialUpdate.StatementAppliesColumns | src/repositories/src/animal_repository.cpp:160-207 | executing the numbered text writes to each column its own value, for any list of columns |
| PartialUpdate.PatchExecutes | src/models/src/animal.cpp:51-68 | sentinel encoding, statement building and execution together apply the patch without its sentinel fields; a patch with nothing left is an SQL error |
| PartialUpdate.UpdateIsPatchExactly | src/repositories/src/animal_repository.cpp:167-200 | the update is the patch, for every row, iff the patch is not empty and gives no field as its sentinel |
| PartialUpdate.PatchKeeps | src/repositories/src/animal_repository.cpp:185-188 | the organization never changes, the adopter is cleared iff a status is given, and repeating the patch changes nothing |
| AccountUpdate.BuildOrganizationUpdate | src/repositories/src/organization_repository.cpp:77-105 | statement and parameters of the given columns, or no statement if there are none |
| AccountUpdate.OrganizationPatchExecutes | src/models/src/organization.cpp:32-34 | an organization update never fails; an empty text clears a nullable column, an empty name or the city -1 is ignored, everything else is replaced as given |
| AccountUpdate.OrganizationUpdateIsPatchExactly | src/repositories/src/organization_repository.cpp:77-110 | the update is the patch, for every organization, iff neither name nor city is given as its sentinel |
| AccountUpdate.AddUserField | src/repositories/src/user_repository.cpp:59-74 | the separate index counter stays equal to the next free parameter, so each placeholder is bound to its own column's value |
| AccountUpdate.BuildUserUpdate | src/repositories/src/user_repository.cpp:52-83 | statement and parameters of the given columns, or no statement if there are none |
| AccountUpdate.UserPatchExecutes | src/models/src/user.cpp:23-40 | a user update applies the patch without its empty strings and never touches the organization |
| AccountUpdate.UserUpdateIsPatchExactly | src/repositories/src/user_repository.cpp:52-83 | the update is the patch, for every user, iff no field is given as the empty string |
| Statements.InsertKeeps | postgresql/schemas/postgres-db.sql:43-147 | an INSERT keeps foreign keys, unique values, sequences and row rules, whatever it does |
| Statements.UpdateKeeps | postgresql/schemas/postgres-db.sql:43-147 | so does an UPDATE of one row that obeys the row rules |
| Statements.RemoveKeeps | postgresql/schemas/postgres-db.sql:152-166 | so does a DELETE with all it drags along |
| CallLaws.CallsDecide | src/services/src/adopt_request_service.cpp:73-98 | in sound tables each call is refused as not found iff a row it names is missing, as forbidden iff its caller is not linked to the organization concerned, has not written the review, or already has an organization, and otherwise ends with the first obstacle there is, or succeeds if there is none |
| CallLaws.EffectChanges | src/services/src/animal_service.cpp:32-94 | what a successful call changes, column by column, and that no other row changes |
| CallLaws.RunsDecide | src/services/src/organization_service.cpp:60-116 | in every run: a call succeeds iff its rows are there, its caller is entitled and nothing stands in the way; it then makes exactly its change, and otherwise none |
| Services.Store.RegisterUser | src/services/src/user_service.cpp:20-31 | unique email or exception; after an exception the tables are as before |
| Services.Store.UpdateUser | src/services/src/user_service.cpp:56-69 | the patched row, or exactly the exceptions for an unknown user and for another user's email, with the tables unchanged |
| Services.Store.DeleteUser | src/services/src/user_service.cpp:75-84 | the cascade of the user's row, or the exception for an unknown user |
| Services.Store.RegisterOrganization | src/services/src/organization_service.cpp:16-26 | check, create and link as one effect: a new organization linked to the user, or an exception and nothing changed |
| Services.Store.UpdateOrganization | src/services/src/organization_service.cpp:60-93 | the patched organization; the city lookup after the write cannot throw |
| Services.Store.DeleteOrganization | src/services/src/organization_service.cpp:95-116 | the cascade of the organization's row; only its own user may |
| Services.Store.CreateAnimal | src/services/src/animal_service.cpp:32-41 | a new animal without adopter, or the exception and nothing changed |
| Services.Store.UpdateAnimal | src/services/src/animal_service.cpp:43-77 | the patched animal; the breed lookup after the write cannot throw, a missing breed is refused by the foreign key before |
| Services.DroppedPhotos | src/services/src/animal_service.cpp:61-72 | the photos deleted from storage after an update are exactly those the row had and has no longer |
| Services.Store.DeleteAnimal | src/services/src/animal_service.cpp:250-271 | the cascade of the animal's row; only its organization's user may |
| Services.Store.GetAnimal | src/services/src/animal_service.cpp:128-142 | found iff the row exists: its breed is always there |
| Services.Store.Adopt | src/services/src/animal_service.cpp:79-94 | only an available animal changes hands, and the lookup after the write cannot throw |
| Services.Store.CreateRequest | src/services/src/adopt_request_service.cpp:16-29 | one request per user and animal, only on an available animal; the user lookup after the write cannot throw |
| Services.Store.Accept | src/services/src/adopt_request_service.cpp:73-85 | the animal gets the requester as adopter and all its requests disappear, or nothing changes |
| Services.Store.Deny | src/services/src/adopt_request_service.cpp:87-98 | exactly that request disappears, or nothing changes |
| Services.Store.CreateReview | src/services/src/review_service.cpp:46-57 | one review per user and animal; the lookup after the write cannot throw |
| Services.Store.UpdateReview | src/services/src/review_service.cpp:59-79 | only the text of the user's own review changes, and not at all without a new text |
| Services.Store.DeleteReview | src/services/src/review_service.cpp:81-92 | exactly the user's own review disappears |
| Services.LeafDelete | postgresql/schemas/postgres-db.sql:100-110 | deleting a request or a review drags nothing along |
| Runs.StepKeepsUnclaimed | src/services/src/adopt_request_service.cpp:73-85 | each service call keeps: no pending request is for an animal with an adopter |
| Runs.AdoptedAnimalsHaveNoRequests | src/services/src/adopt_request_service.cpp:16-29 | in every state of every run of service calls an animal with an adopter has no pending request |
| Runs.StepPotential | src/services/src/animal_service.cpp:79-90 | one call's accepts plus the animal being open afterwards are at most its being open before plus the call's resets |
| Runs.AcceptsAndResets | src/services/src/animal_service.cpp:79-90 | an accept takes an animal that is open and leaves it taken; an update that makes it available leaves it open |
| Runs.AcceptsBoundedByResets | src/services/src/adopt_request_service.cpp:73-85 | in every run each animal is accepted at most once plus once for every update that made it available again |
| Runs.OrganizationsHaveOneUser | src/repositories/src/user_repository.cpp:85-107 | in every state of every run of service calls organizations and linked users correspond one to one |
| Runs.RunsStaySound | postgresql/schemas/postgres-db.sql:40-147 | every state of a run satisfies foreign keys, unique values, sequences and row rules |
| Runs.InstalledIsGood | postgresql/schemas/postgres-db.sql:40-78 | a database with only cities and breeds satisfies all the invariants |
| Undisturbed.UndisturbedIsCall | src/services/src/adopt_request_service.cpp:73-85 | in sound tables the statements of each successful call, executed in order with nothing between, leave exactly the call's effect and nothing in flight |
| Undisturbed.StatementsDo | src/repositories/src/post_repository.cpp:53-109 | what each statement on posts and sessions does to the rows: an added, replaced or removed row, or exactly the sessions with a hash or expired before a moment |
| Interleaving.StepKeeps | src/services/src/organization_service.cpp:16-26 | any single statement, with any arguments, keeps the row-level invariants and the separation of half-registered organizations |
| Interleaving.InterleavingsStaySound | src/repositories/src/user_repository.cpp:85-107 | under every interleaving of single statements: foreign keys and unique values hold, an animal with an adopter is adopted, no organization has two users, unlinked new organizations stay distinct and unlinked |
| Interleaving.PostAndSessionCallsAreElsewhere | src/services/src/post_service.cpp:17-107 | whatever statements a call of the post or session service issues, it is a call of a run that leaves all other rows alone |
| Overlaps.StatementKeepsUnclaimedExactly | src/repositories/src/adopt_request_repository.cpp:10-19 | a single statement keeps adopted animals free of requests iff it neither adopts an animal that has requests nor files a request for an animal that has an adopter |
| Overlaps.UnclaimedExactly | src/services/src/adopt_request_service.cpp:16-29 | under every interleaving adopted animals stay free of requests throughout iff no statement does either of these |
| Overlaps.LateRequestStaysPending | src/services/src/adopt_request_service.cpp:16-29 | an instance of two overlapping calls: a request inserted after another was accepted stays pending on the adopted animal |
| Overlaps.ExcessAdoptionsAreLate | src/services/src/animal_service.cpp:79-90 | under every interleaving the adoptions of an animal are at most one plus its resets plus the adoptions written when it was no longer available |
| Overlaps.AdoptsAndResets | src/repositories/src/animal_repository.cpp:332-343 | a statement that adopts leaves the animal taken and found it open iff it was not late; a reset leaves it open |
| Overlaps.StepPotentialExactly | src/repositories/src/animal_repository.cpp:332-343 | for any step, its adoption plus the animal's being open afterwards is at most its being open before plus a reset iff it is not a late adoption |
| Overlaps.AdoptionsPaidForExactly | src/services/src/animal_service.cpp:79-90 | under every interleaving: in every stretch, adoptions plus being open at its end are at most being open at its start plus resets, iff no adoption is written when the animal is no longer available |
| Overlaps.SecondAcceptOverwrites | src/services/src/adopt_request_service.cpp:73-85 | two accepts that both checked first make two adoptions without a reset, one of them late, and the second user has the animal |
| Ownership.ExecuteKeepsOwners | postgresql/schemas/postgres-db.sql:152-166 | no statement outside registration takes the user from an organization that it leaves in place |
| Ownership.StepAccounted | src/repositories/src/user_repository.cpp:85-96 | after each step every organization has a user, is in flight, or has been left, and only one of these |
| Ownership.UnownedExactly | src/services/src/organization_service.cpp:16-26 | from paired tables, under every interleaving: with no registration in flight an organization lacks a user iff a link left it behind, its user being gone or linked to another |
| Ownership.SecondLinkLeaves | src/repositories/src/user_repository.cpp:85-96 | of two registrations of one user in flight at once, the first to link has its organization left without a user by the second |
| PendingReviews.QueryListsPending | src/repositories/src/animal_repository.cpp:364-380 | the query lists each adopted and not yet reviewed animal of the user once, by ascending id |
| PendingReviews.ReviewTakesOff | src/services/src/review_service.cpp:46-57 | reviewing takes exactly that animal off exactly that user's list |
| PendingReviews.AcceptPutsOn | src/services/src/adopt_request_service.cpp:73-85 | accepting puts the animal on the adopter's list unless they have reviewed it before, and changes nobody else's |
| Base64Url.DecodeEncode | src/services/src/jwt_service.cpp:49-60 | decoding what was encoded gives every byte string back, with or without padding (section 5 of RFC 4648) |
| Base64Url.EncodeHasNoDot | src/services/src/jwt_service.cpp:55-60 | no encoded segment contains a dot |
| Json.ReadObjectText | src/services/src/jwt_service.cpp:41-53 | reading a printed flat JSON object gives the object back |
| Jwt.StollOfInt | src/services/src/jwt_service.cpp:42 | the decimal print of every 64-bit id is parsed back |
| Jwt.TokenRoundTrip | src/services/src/jwt_service.cpp:36-129 | for every 64-bit user id, kind, lifetime and time: validation of a created token gives that user and kind while the current second is at most exp, Expired after, never Invalid; the embedded expiry is read back |
| Jwt.ClaimsRead | src/services/src/jwt_service.cpp:36-64 | from the text of a created token anyone reads back algorithm and type, subject, iat as the issuing second, exp a lifetime later, kind, issuer, and an id that decodes to the random block |
| Jwt.ValidatesExactly | src/services/src/jwt_service.cpp:79-129 | for every text: it is expired iff it is signed by the service, names its algorithm and issuer, and its expiry second is over; valid iff so far signed and issued, not over, and with a subject and a kind, which are the ones reported; otherwise invalid |
| Jwt.TokenKinds | src/services/src/jwt_service.cpp:131-148 | a token passes the check for its own kind only |
| Jwt.TokenCheckOutlivesExpiry | src/services/src/jwt_service.cpp:113-116 | at or after its expiration time (section 4.1.4 of RFC 7519) the token check alone still accepts exactly during the expiry second |
| Jwt.OnlySignedTokensPass | src/services/src/jwt_service.cpp:87-95 | whatever is not Invalid carries the service's signature over all before its last dot |
| SessionService.PgSessionService.CreateSession | src/services/src/pg_session_service.cpp:19-39 | the new token validates, to that user, until its expiry and not from then on, and tokens with another hash validate as before; it fails iff the user is unknown or the hash is taken, and then changes nothing |
| SessionService.PgSessionService.RevokeSession | src/services/src/pg_session_service.cpp:59-66 | afterwards the token validates at no time, and every token with another hash validates as before |
| SessionService.PgSessionService.RevokeExpiredSessions | src/services/src/pg_session_service.cpp:68-74 | from now on every token validates as it would have without the deletion, no row that expires later goes, and the deleted rows are counted |
| SessionService.PgSessionService.Refresh | src/handlers/src/auth_refresh_handler.cpp:34-41 | a token that does not validate is refused and nothing changes; otherwise the old token validates at no time, the new one, to the same user, until its expiry, tokens with other hashes as before; if the new session cannot be written the old one is gone all the same |
| SessionService.PgSessionService.DoWork | src/components/src/session_cleaner_component.cpp:18-37 | the cleaner loop, with any other requests served between its iterations, takes the tables through exactly the run of those requests with one cleaning per iteration |
| Sessions.ServeAgrees | src/services/src/pg_session_service.cpp:19-74 | one event on the tables gives the answer of an ideal store of issued tokens that never cleans, and keeps the correspondence of the two, if tokens last or the one to be issued is not live |
| SessionRuns.RunAgrees | src/services/src/pg_session_service.cpp:19-74 | so does every run, if tokens last at all or no random block is drawn twice |
| SessionCleaner.CleaningChangesNoAnswer | src/components/src/session_cleaner_component.cpp:18-37 | removing all cleanings from a run changes no other answer, if tokens last at all or no random block is drawn twice |
| SessionCleaner.CleanerInvisibleExactly | src/services/src/pg_session_service.cpp:68-74 | over all runs, also those that draw one random block twice, cleanings are invisible iff refresh tokens live at least one second |
| SessionService.CleanerLoopIsInvisible | src/components/src/session_cleaner_component.cpp:18-37 | with the cleaner loop beside them, all other requests get the answers they would get without it |
| SessionLaws.AcceptsExactly | src/services/src/pg_session_service.cpp:41-57 | after every run a token is accepted, for user u, iff u's session was issued, not revoked since, u not deleted since, and its expiry lies strictly in the future |
| SessionLaws.RefreshesBoundedByIssues | src/handlers/src/auth_refresh_handler.cpp:34-41 | in every run a token is refreshed successfully at most as often as it was issued |
| SessionLaws.RefreshIsSingleUse | src/handlers/src/auth_refresh_handler.cpp:34-41 | with distinct random blocks it is refreshed successfully at most once |
| SessionRuns.TokensTellRandomsApart | src/services/src/jwt_service.cpp:47 | equal refresh tokens come from equal random blocks |
| SessionLaws.RefreshConservesSessions | src/handlers/src/auth_refresh_handler.cpp:34-41 | after every run a successful refresh replaces exactly one row of its user and keeps every user's number of rows |
| RefreshRaces.UndisturbedIsRotate | src/handlers/src/auth_refresh_handler.cpp:34-41 | the three statements of a refresh, with nothing between them, are the refresh of the session runs |
| RefreshRaces.IssuedTokenStarts | src/services/src/pg_session_service.cpp:19-39 | every token just issued meets what the following results ask of a token and its tables |
| RefreshRaces.ScheduleDecides | src/services/src/pg_session_service.cpp:41-66 | under every schedule of any number of refreshes of one token, each with its own clock readings, the turns taken decide how far each refresh is and what the tables hold |
| RefreshRaces.RefreshesExactly | src/handlers/src/auth_refresh_handler.cpp:34-41 | of the refreshes that have their answers, those and only those succeed that validated in time and before the first of them revoked; the rest are unauthorized; the new hashes differ, each is one new session, and no other session changes |
| RefreshRaces.AdmittedIfDifferent | src/handlers/src/auth_refresh_handler.cpp:34-41 | while the token lasts, a refresh succeeds iff the turns before its first are all by different refreshes |
| RefreshRaces.TwoRefreshesExactly | src/handlers/src/auth_refresh_handler.cpp:34-41 | of two refreshes of an accepted token, the one that comes first succeeds, and both do iff the first two statements are one of each |
| Joins.LeftJoinOnKey | src/repositories/src/animal_repository.cpp:289-319 | a LEFT JOIN on a primary key keeps every left row once and in place |
| Joins.InnerJoinOnKey | src/repositories/src/adopt_request_repository.cpp:65-68 | so does a JOIN along a foreign key that holds |
| Pages.PagesPartition | src/services/src/animal_service.cpp:246 | pages 1 to total_pages concatenate to the whole result; all but the last have 20 items, later pages are empty |
| Pages.ListingPagesPartition | src/repositories/src/animal_repository.cpp:111-126 | pages fetched by separate statements, each with its own choice of order for ties, still partition the result if the keys tell the rows apart |
| AnimalSearch.TestsMeanWanted | src/repositories/src/animal_repository.cpp:269-293 | the conditions built for a filter pass exactly the rows it asks for, an empty choice being no constraint |
| SearchPages.EnumsToLiterals | src/repositories/src/animal_repository.cpp:43-50 | the literals of the values, or failure iff some value is unspecified |
| SearchPages.BuildConditions | src/repositories/src/animal_repository.cpp:269-293 | pushes the conditions of the filter in order, or fails iff some enum value has no literal |
| SearchPages.CountStatementMeans | src/repositories/src/animal_repository.cpp:295-305 | every admissible result of the count statement has as many rows as the unpaged data result |
| SearchPages.DataStatementMeans | src/repositories/src/animal_repository.cpp:307-320 | the data statement has exactly one admissible result: the slice of the wanted rows by id; a negative offset makes it fail |
| SearchPages.FindByFiltersPaginated | src/repositories/src/animal_repository.cpp:260-324 | bad page or limit, unspecified enum, negative narrowed offset, or that slice with the total: each input has exactly that one outcome |
| AnimalListings.FindByFilters | src/services/src/animal_service.cpp:213-248 | bad page, unspecified value, or: the total is the number of animals that hold a choice of every facet given and not empty and whose age is in the range given, 0 to 100 where left open; and up to page 107374183 the items are that page of these animals by ascending id, each shown with its breed and whether this user could request it |
| AnimalListings.GetByOrganizationPaginated | src/services/src/animal_service.cpp:144-178 | unknown organization, bad page, or the page of its animals, available ones first, with their number, each item showing its animal, its breed and whether this user could request it |
| AnimalListings.SelectedAnswers | src/models/src/animal_filters.cpp:5-21 | for every request and all tables, the search selects exactly the animals the request asks for, once each and by ascending id |
| SearchPages.SelectedAscending | src/repositories/src/animal_repository.cpp:307-320 | the selected rows are the wanted rows of the table by strictly ascending animal id |
| SearchPages.SearchPageExactly | src/repositories/src/animal_repository.cpp:309 | for every filter and table the requested page is the one returned iff the page number is at most 107374183 |
| SearchPages.WrappedPages | src/repositories/src/animal_repository.cpp:309 | page 107374184 fails, and page 214748366 shows items 5 to 24 again |
| SearchPages.SearchPagesPartition | src/repositories/src/animal_repository.cpp:260-324 | the pages of a search hold every wanted row as often as the table and no other, by strictly ascending id; each reports the size of the whole |
| OrganizationSearch.FindByNameContainingPaginated | src/repositories/src/organization_repository.cpp:25-62 | the total is the number of organizations whose name contains the text, ignoring case, and the page is cut from some order of them |
| OrganizationSearch.PageHoldsMatches | src/repositories/src/organization_repository.cpp:49-59 | whatever order the engine takes, a page holds matching organizations only, and as many as a page of that list |
| OrganizationSearch.PagesMayOverlapExactly | src/repositories/src/organization_repository.cpp:49-59 | without ORDER BY pages 1 and 2 can show the same organization iff there are more than 20 matches |
| Listings.GetByOrganizationIdPaginated | src/repositories/src/animal_repository.cpp:95-130 | bad arguments, or the one possible page of a list that has each animal of the organization once, available ones first and ids ascending in both parts, with the length of that list |
| Listings.OrganizationAnimalsOrdered | src/repositories/src/animal_repository.cpp:116-122 | exactly the animals whose organization this is, none twice; if a later one is available so is an earlier one; where both or neither are, the smaller id comes first |
| Listings.OrganizationPagesPartition | src/services/src/animal_service.cpp:144-178 | pages fetched one by one give exactly that list, all but the last full and later ones empty |
| Listings.GetRequestsPaginated | src/repositories/src/adopt_request_repository.cpp:46-79 | bad arguments, or the one possible page of the organization's requests with their number |
| Listings.RequestTableRows | src/repositories/src/adopt_request_repository.cpp:65-68 | the join with animals has each request once, with its animal |
| Listings.OrganizationRequestsOrdered | src/repositories/src/adopt_request_repository.cpp:64-75 | exactly the requests for animals of the organization, once each and by strictly ascending id |
| Listings.RequestPagesPartition | src/repositories/src/adopt_request_repository.cpp:64-75 | pages fetched one by one give the organization's requests once each, by id, all but the last full and later ones empty |
| FilterOptions.RemoveUnspecified | src/models/src/animal_filters.cpp:25-28 | remove and erase in place leave the specified values in their order |
| FilterOptions.DtoRoundTrip | src/models/src/animal_filters.cpp:5-63 | through the DTO and back a filter never makes the search throw, and is unchanged iff it has no unspecified value |
| FilterOptions.SearchTableRows | src/repositories/src/animal_repository.cpp:311-318 | the two LEFT JOINs give the animals in scan order, each with its own breed and organization |
| FilterOptions.OptionsHideNothing | src/repositories/src/animal_repository.cpp:214-258 | searching with the advertised options, after the DTO round trip, selects every animal exactly once |
| FilterOptions.DefaultFilterHidesExactly | src/models/src/animal_filters.cpp:17-18 | a search without filters hides exactly the animals younger than 0 or older than 100 |
| BatchedReads.GetAnimalIdsByUserId | src/repositories/src/adopt_request_repository.cpp:33-44 | the loop collects exactly the animals the user has requested |
| BatchedReads.MapByIds | src/services/src/breed_service.cpp:32-40 | the map has exactly the found ids, each with its row |
| BatchedReads.ToDtos | src/services/src/animal_service.cpp:102-125 | every element equals what Get returns for that animal and user; no breed lookup falls back to the default |
| BatchedReads.GetByIds | src/services/src/animal_service.cpp:96-126 | each existing id asked for comes once, and each element shows that animal's row, its breed, and as adoptable iff the animal is available and this user has no request for it |
| BatchedReads.GetShows | src/services/src/animal_service.cpp:128-142 | reading one animal succeeds iff it is there and shows the same of it |
| BatchedReads.OfferedExactly | src/services/src/animal_service.cpp:12-14 | a known user sees an animal as adoptable iff the user's request for it would be accepted now; without a user it is not adoptable |
| BatchedReads.MapAnimals | src/services/src/adopt_request_service.cpp:57-61 | every element is found under its id |
| BatchedReads.GetByOrganizationId | src/services/src/adopt_request_service.cpp:31-71 | no map lookup misses; the items are the page of the organization's requests by ascending id, each with its user's email and its animal as the tables have them, the total is their number, and an empty page reports one page in all |

## Left out

- Interleaving.InterleavingsStaySound: claims the row-level invariants only; "an adopted animal has no pending request", one accept per reset and single use of refresh tokens are stated for undisturbed calls, and for mixed statements under the conditions in Overlaps, Ownership and RefreshRaces.
- Runs.RunsStaySound: calls of the post and the session service appear in these runs as one call that may change posts and sessions only; what session calls do is in SessionLaws.
- RefreshRaces.RefreshesExactly: the user stays, and nothing but refreshes of the one token runs between their statements; the random blocks are distinct and the hashes of the new tokens are not in use.
- SessionLaws.RefreshIsSingleUse: assumes the random blocks of a run are distinct, which the generator makes likely and not certain.
- Sessions.ServeAgrees: the token hash is taken to be injective, and reads see the last committed state.
- Like.IlikeIsSubstringSearch: case folding is a per-character function that leaves the pattern characters alone; the matcher treats a lone trailing escape as no match instead of an error, which search patterns never meet.
- QueryMeaning.CompilationPreservesMeaning: the column expressions a clause uses have no word of the clause grammar standing alone in them, as none of the repository's has: such an expression is SQL whose meaning the clause reader here does not know; texts are ordered by code point, without a collation; comparing values of different types is UNKNOWN where the database would refuse the statement.
- Cascade.DeleteIsOrderIndependent: for deletes on tables no RESTRICT key refers to, the only ones the service issues.
- Services.Store.UpdateAnimal: which photos are deleted from object storage afterwards is in Services.DroppedPhotos; the deletions themselves, of photos and avatars, are left out, as they come after the write and their errors are caught.
- Services.Store.Accept: what calls return is reduced to the id of the row they are about, or the exception; the contents of the returned objects are in BatchedReads.
- Statements.InsertKeeps: varchar lengths, the unique names of cities and breeds (the service never writes them), and the exhaustion of 64-bit id sequences.
- PartialUpdate.PatchExecutes: any text is accepted as an enum literal of a patch; the C++ enum types allow no other.
- FilterOptions.OptionsHideNothing: takes from the database that an enum column holds a value of its type.
- Jwt.TokenRoundTrip: the keyed hash is an arbitrary function to byte strings; whether base64url pads is a parameter, so the result holds either way; the JSON reader covers flat objects without escapes.
- SessionService.PgSessionService.CreateSession: the access token of the pair is not stored and not modelled here; access tokens are covered by Jwt.TokenKinds.
- SessionService.PgSessionService.DoWork: the number of iterations, their clock readings and what else happens between them are inputs; the distributed lock, the length of the sleep and cancellation are not modelled.
- Review and post listings: ordered by creation time alone, so ties make their pages engine-dependent. Post updates are statements of Interleaving, without their text and parameters.
- Password hashing: the hash is an input of the user update.
- HTTP handlers other than the refresh sequence, JSON transfer objects, validation of inputs, configuration, object storage, the Redis session service, city, breed and post services: plumbing or easy members.
