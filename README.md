# SmartRent360 backend core in Dafny

A model of the core of the SmartRent360 rental-marketplace backend, with
proofs about it. In the original this is an Express and Prisma service in
TypeScript. The model covers the following:

- **The store.** A table is a class holding a map from id to record, the ids in
  creation order, and a creation counter that stands in for `createdAt`. There
  are four tables: users, properties, requests and commissions. Module
  `Tables` gives the meaning of the ORM calls the repositories make: a `where`
  filter, newest-first `orderBy`, `skip`/`take` and `count`.
- **The repositories** (`UserRepo`, `PropertyRepo`, `RequestRepo`,
  `CommissionRepo`).
  - Each `where` object is built field by field, as the source builds it, with
    JavaScript truthiness: 0 and the empty string mean "no filter".
  - Each builder is proved equivalent to a declarative meaning of the filters
    (`Admits`).
  - Create and update operations state the whole new table.
- **The rental-request lifecycle** (`RequestService`): PENDING → CONNECTED →
  COMPLETED.
  - It keeps the invariant "at most one PENDING request per (tenant,
    property)".
  - Every request refers to a stored tenant and property.
  - Statuses only move forward, one step at a time, over any history.
  - Completion sets the property to RENTED.
- **The other services' guard ladders** (property, commission, user, admin).
  Each failure names the source's error message and writes nothing. Each
  success states exactly what was written. The 5% platform fee is an integer
  round-half-up.
- **The middleware decisions as pure functions**:
  - the role gate, and bearer-token extraction over a model of
    `String.prototype.split(' ')`;
  - error-message → status classification;
  - validation-error grouping, as a loop over the errors that builds a map;
  - pagination parameters and `totalPages`;
  - the localization lookup with its two literal tables.

Errors are `Result.Err(message)` and carry the source's exact texts. The
lemmas about `ErrorHandler.Classify` apply the last-resort `errorHandler`
(mounted last in src/server.ts) to those texts. They describe what that
handler would answer. They do not describe the HTTP answer to a service error
in the running program: each controller catches its service's errors itself
and answers with its own fixed status (400 for most, 401 for login), so these
messages never reach `errorHandler`. The
password hash, the hash check and token verification are function parameters.
Fresh record ids (UUIDs in the database) are parameters, with a precondition
that they are not yet stored.

## Model

| member | source | states |
|---|---|---|
| Tables.Window | src/repositories/request.repository.ts:61-62 | `skip`/`take`: at most `take` items; the k-th is item `skip + k` of the full list; past the end, nothing |
| Tables.MatchingFacts | src/repositories/request.repository.ts:58-74 | the unpaged newest-first list holds exactly the stored records satisfying the filter, each once (its length equals `count`), in strictly decreasing `createdAt` |
| Tables.MatchingNewestFirst | src/repositories/request.repository.ts:72 | `orderBy: { createdAt: 'desc' }`: the listed records have strictly decreasing stamps |
| Tables.MatchingCount | src/repositories/request.repository.ts:74 | the number of listed matches equals `count({ where })`, whatever the page |
| Tables.QueryFacts | src/repositories/user.repository.ts:38-46 | one page: at most `pageSize` records, each stored and matching, newest first, with `totalItems` the count of all matches |
| Tables.QueryCovers | src/repositories/request.repository.ts:58-74 | paging loses nothing: the k-th match is item `k % pageSize` of page `k / pageSize + 1`, and that page is within `totalPages` |
| Tables.SecondPageOfTwentyFive | src/repositories/request.repository.ts:61-62 | of 25 matches in pages of 10, page 2 holds matches 11 to 20, and there are 3 pages |
| Tables.CountAtMostSize | src/services/admin.service.ts:47-49 | a filtered count never exceeds the table size |
| Pagination.CeilDiv | src/utils/pagination.ts:14 | `Math.ceil(n / d)`: the least r with `r * d >= n`; 0 for no items |
| Pagination.Paginate | src/utils/pagination.ts:3-16 | passes data, totalItems, page and pageSize through; `totalPages` covers every item, and one page fewer would not |
| Pagination.GetPaginationParams | src/utils/pagination.ts:18-25 | page ≥ 1 (missing, 0 or negative gives 1); pageSize in [1, 100] (missing or 0 gives 10, negative gives 1, above 100 gives 100); in-range values are kept |
| Pagination.TotalPagesExamples | src/utils/pagination.ts:14 | (25, 10) → 3, (0, 10) → 0, (20, 10) → 2 |
| UserRepo.UserRepository.Create | src/repositories/user.repository.ts:5-15 | stores exactly the given fields, unverified, under the fresh id; the table stays valid and phones stay unique |
| UserRepo.UserRepository.FindById | src/repositories/user.repository.ts:17-25 | the stored record, or None exactly when the id is absent |
| UserRepo.UserRepository.FindByPhone | src/repositories/user.repository.ts:27-31 | Some exactly when a user has that phone, and then it is that (unique) user |
| UserRepo.UserRepository.FindPendingVerification | src/repositories/user.repository.ts:33-49 | a page of unverified stored users only, newest first, with `totalItems` the number of all unverified users; the page is the window `(page-1)*pageSize`, `pageSize` of the full newest-first list |
| UserRepo.UserRepository.VerifyUser | src/repositories/user.repository.ts:51-56 | only `verified := true` on that user; an unknown id is the store's "Record to update not found" and changes nothing |
| UserRepo.UserRepository.FindAll | src/repositories/user.repository.ts:58-72 | at most `pageSize` stored users, newest first, with `totalItems` the number of users; the page is the window `(page-1)*pageSize`, `pageSize` of the full newest-first list |
| PropertyRepo.BuildWhere | src/repositories/property.repository.ts:51-65 | the built `where` admits a property iff the filters do: exact type, status and verified (false included); inclusive price bounds where a 0 bound is absent; a case-insensitive substring for a non-empty location; rooms only when non-zero |
| PropertyRepo.ApplyPatch | src/repositories/property.repository.ts:106-125 | each provided field overwrites; every other field, and id, owner, verified and createdAt, is kept |
| PropertyRepo.StatusPatchSetsStatus | src/services/request.service.ts:87-89 | the `{ status }` patch changes the status and nothing else |
| PropertyRepo.PropertyRepository.Create | src/repositories/property.repository.ts:6-21 | stores exactly the DTO's fields, AVAILABLE and unverified, under the fresh id |
| PropertyRepo.PropertyRepository.FindById | src/repositories/property.repository.ts:23-32 | the stored record, or None exactly when absent |
| PropertyRepo.PropertyRepository.Matches | src/repositories/property.repository.ts:67-79 | exactly the stored properties the filters admit, each once, newest first |
| PropertyRepo.PropertyRepository.Search | src/repositories/property.repository.ts:34-82 | the page is the window `(page-1)*pageSize`, `pageSize` of the admitted properties, newest first; `totalItems` counts all of them |
| PropertyRepo.PropertyRepository.FindPendingVerification | src/repositories/property.repository.ts:84-104 | a page of unverified properties only, newest first, with `totalItems` counting all unverified ones; the page is the window `(page-1)*pageSize`, `pageSize` of the full newest-first list |
| PropertyRepo.PropertyRepository.Update | src/repositories/property.repository.ts:106-125 | that property becomes `ApplyPatch` of itself and nothing else changes; an unknown id fails with nothing changed |
| PropertyRepo.PropertyRepository.VerifyProperty | src/repositories/property.repository.ts:127-136 | only `verified := true` on that property; an unknown id fails with nothing changed |
| PropertyRepo.PropertyRepository.FindByOwnerId | src/repositories/property.repository.ts:138-146 | exactly that owner's stored properties, unpaged, newest first |
| RequestRepo.BuildWhere | src/repositories/request.repository.ts:48-56 | the built `where` admits a request iff the filters do; tenant and property ids enter exactly when non-empty |
| RequestRepo.RequestRepository.Create | src/repositories/request.repository.ts:6-23 | stores a PENDING request without admin, with the given tenant, property and message, under the fresh id |
| RequestRepo.RequestRepository.FindById | src/repositories/request.repository.ts:25-38 | the stored record, or None exactly when absent |
| RequestRepo.RequestRepository.Matches | src/repositories/request.repository.ts:58-73 | exactly the stored requests the filters admit, each once, newest first |
| RequestRepo.RequestRepository.Search | src/repositories/request.repository.ts:40-78 | the window of the admitted requests for that page, newest first; `totalItems` counts all of them |
| RequestRepo.RequestRepository.Update | src/repositories/request.repository.ts:80-100 | overwrites only the provided status and admin of that request; an unknown id fails with nothing changed |
| RequestRepo.RequestRepository.ConnectRequest | src/repositories/request.repository.ts:102-107 | exactly `status := CONNECTED` and the admin id on that request |
| RequestRepo.RequestRepository.CompleteRequest | src/repositories/request.repository.ts:109-113 | exactly `status := COMPLETED`; the admin id is kept |
| RequestRepo.FirstPageDetectsPending | src/services/request.service.ts:37-49 | the one-item first page of (tenant, property, PENDING) is non-empty iff such a request is stored |
| CommissionRepo.BuildWhere | src/repositories/commission.repository.ts:47-53 | the built `where` admits a commission iff the filters do; each id enters exactly when non-empty |
| CommissionRepo.CommissionRepository.Create | src/repositories/commission.repository.ts:6-23 | stores exactly the given ids, amount and fee under the fresh id |
| CommissionRepo.CommissionRepository.FindById | src/repositories/commission.repository.ts:25-37 | the stored record, or None exactly when absent |
| CommissionRepo.CommissionRepository.Matches | src/repositories/commission.repository.ts:55-73 | exactly the stored commissions the filters admit, each once, newest first |
| CommissionRepo.CommissionRepository.Search | src/repositories/commission.repository.ts:39-74 | the window of the admitted commissions for that page, newest first; `totalItems` counts all of them |
| CommissionRepo.CommissionRepository.FindAll | src/repositories/commission.repository.ts:76-98 | at most `pageSize` stored commissions, newest first, with `totalItems` the table size; the page is the window `(page-1)*pageSize`, `pageSize` of the full newest-first list |
| RequestService.RequestService.CreateRequest | src/services/request.service.ts:14-52 | guards in source order (tenant missing, unverified, property missing, not AVAILABLE, a PENDING duplicate); succeeds iff all pass; failure writes nothing; success adds exactly one PENDING request; both lifecycle invariants are kept |
| RequestService.RequestService.ConnectRequest | src/services/request.service.ts:62-73 | succeeds iff the request exists and is PENDING; then only its status (CONNECTED) and admin change; failure writes nothing; invariants kept |
| RequestService.RequestService.CompleteRequest | src/services/request.service.ts:75-92 | succeeds iff the request exists and is CONNECTED; then its property is set to RENTED (whatever it was) and the request to COMPLETED, nothing else; failure writes nothing in either table |
| RequestService.RequestService.CompleteThenRequest | src/services/request.service.ts:32-34 | after a completion, a request for the same property from a verified tenant fails with "Property is not available" |
| RequestService.ForwardStep | src/services/request.service.ts:62-91 | one forward status step on one request keeps the pending pairs unique and the references intact |
| RequestService.NewPendingStep | src/services/request.service.ts:36-51 | adding a PENDING request for a pair that has none keeps the pending pairs unique and the references intact |
| RequestService.HistoryNeverBackward | src/services/request.service.ts:62-91 | over any run of lifecycle steps, no request's status moves backward and its tenant and property never change |
| PropertyService.PropertyService.CreateProperty | src/services/property.service.ts:12-24 | "Owner not found", then "Owner must be verified to create properties", with no role check; success stores exactly the DTO's property; failure writes nothing |
| PropertyService.PropertyService.UpdateProperty | src/services/property.service.ts:34-51 | "Property not found"; allowed iff the user owns the property or is ADMIN, else "Unauthorized to update this property"; success changes only the patched fields of that property; failure writes nothing |
| PropertyService.PropertyService.VerifyProperty | src/services/property.service.ts:53-55 | only `verified := true`; verifying an already verified property changes nothing |
| PropertyService.PropertyService.GetPendingVerification | src/services/property.service.ts:57-59 | unverified stored properties only, newest first, with the count of all of them; the page is the window `(page-1)*pageSize`, `pageSize` of the full newest-first list |
| CommissionService.Fee | src/services/commission.service.ts:39 | `Math.round(amount * 0.05)`: the integer `fee` with `20*fee <= amount + 10 < 20*fee + 20` (round half up) |
| CommissionService.FeeBounds | src/services/commission.service.ts:39 | for amount ≥ 0, 0 ≤ fee ≤ amount |
| CommissionService.FeeIsNearest | src/services/commission.service.ts:39 | 20 × fee is within half a unit, (-10, 10], of the amount |
| CommissionService.FeeExamples | src/services/commission.service.ts:39 | 50000 → 2500, 10 → 1, 9 → 0, 30 → 2, 0 → 0 |
| CommissionService.CommissionService.CreateCommission | src/services/commission.service.ts:17-45 | "Commissioner not found", "User must be a commissioner", "Commissioner must be verified", "Property not found", in that order; a property of any status is accepted; success stores one commission with the given ids and amount and the computed fee; failure writes nothing |
| UserService.UserService.Register | src/services/user.service.ts:9-28 | fails iff the phone is already used, then writes nothing; otherwise stores the DTO, any role, with the password replaced by its hash, and returns it without the hash |
| UserService.UserService.Login | src/services/user.service.ts:30-51 | every failure is "Invalid credentials"; an unknown phone fails; for the user with that phone, success iff the hash check accepts, returning the user without the hash and an empty token |
| UserService.UserService.GetUserById | src/services/user.service.ts:53-60 | None iff the id is absent, else the stored user without the hash |
| UserService.UserService.VerifyUser | src/services/user.service.ts:66-70 | only `verified := true`, returning the user without the hash; idempotent |
| UserService.LoginAfterRegister | src/services/user.service.ts:30-51 | a user stored with `hash(p)` logs in with `p`, given a hash check that accepts every password against its own hash |
| UserService.StripPasswordForgetsOnlyThePassword | src/services/user.service.ts:26-27 | two users have the same public view iff they differ at most in the password |
| AdminService.OrZero | src/services/admin.service.ts:66-67 | `sum \|\| 0`: a missing aggregate is 0 |
| AdminService.FeesWithinAmounts | src/services/admin.service.ts:50-55 | with non-negative amounts and computed fees, 0 ≤ sum of fees ≤ sum of amounts |
| AdminService.AdminService.AllCommissions | src/services/admin.service.ts:50-55 | every stored commission, each exactly once |
| AdminService.AdminService.GetStats | src/services/admin.service.ts:32-69 | the four table sizes; unverified users and properties and PENDING requests counted, each at most its total; sums of amounts and fees, 0 over an empty table; nothing changes |
| AdminService.UnverifiedUsers | src/services/admin.service.ts:47 | the number of unverified users, at most the number of users |
| AdminService.UnverifiedProperties | src/services/admin.service.ts:48 | the number of unverified properties, at most the number of properties |
| AdminService.PendingRequests | src/services/admin.service.ts:49 | the number of PENDING requests, at most the number of requests |
| AdminService.TotalFeeWithinTotalAmount | src/services/admin.service.ts:50-67 | when every fee was computed from its amount and no amount is negative, 0 ≤ total fee ≤ total amount |
| Rbac.RequireRole | src/middlewares/rbac.middleware.ts:6-20 | no user: 401 "Authentication required"; a role not allowed: 403 "Insufficient permissions"; goes on iff a user with an allowed role is present |
| Rbac.NoRoleAdmitsNobody | src/middlewares/rbac.middleware.ts:13 | an empty role list refuses every request |
| Rbac.MoreRolesAdmitMore | src/middlewares/rbac.middleware.ts:13 | allowing more roles never refuses what fewer roles let through |
| Rbac.OnlyTheRoleMatters | src/middlewares/rbac.middleware.ts:13 | users with the same role get the same decision |
| Auth.Split | src/middlewares/auth.middleware.ts:15 | `split(' ')`: at least one piece and no piece contains a space |
| Auth.JoinSplit | src/middlewares/auth.middleware.ts:15 | joining the pieces with single spaces gives back the header |
| Auth.SplitJoin | src/middlewares/auth.middleware.ts:15 | splitting space-free pieces joined by spaces gives back the pieces |
| Auth.SplitWord | src/middlewares/auth.middleware.ts:15 | a space-free string is one piece |
| Auth.TokenOf | src/middlewares/auth.middleware.ts:14-15 | the token is the second piece when it exists and is non-empty, and only then |
| Auth.SchemeWordIsIgnored | src/middlewares/auth.middleware.ts:15 | `<any word> <token>` yields the token: the scheme is not checked |
| Auth.BareTokenIsRefused | src/middlewares/auth.middleware.ts:15-20 | a header without a space carries no token |
| Auth.Authenticate | src/middlewares/auth.middleware.ts:8-33 | no token: 401 "Access token required"; a rejected token: 401 "Invalid or expired token"; otherwise the request's user is exactly `{userId, role, phone}` of the payload |
| ErrorHandler.Classify | src/middlewares/error.middleware.ts:4-30 | "not found" first → 404; else "Unauthorized" or "Invalid" → 401; else "Insufficient" or "Forbidden" → 403; else 500, the last case iff all five tests miss, with the fixed "Internal server error" text |
| ErrorHandler.ClassifyShape | src/middlewares/error.middleware.ts:13-29 | only 404, 401, 403 and 500 occur; the message passes through unless the status is 500 |
| ErrorHandler.RequestNotFoundsGive404 | src/middlewares/error.middleware.ts:13-16 | `errorHandler` classifies the request service's three "not found" messages as 404 |
| ErrorHandler.OtherNotFoundsGive404 | src/middlewares/error.middleware.ts:13-16 | `errorHandler` classifies "Owner not found", "Commissioner not found" and the store's "Record to update not found" as 404 |
| ErrorHandler.FallsThrough | src/middlewares/error.middleware.ts:28-29 | a message missing all five words answers 500 with the fixed text |
| ErrorHandler.Gives401 | src/middlewares/error.middleware.ts:18-21 | without "not found", "Unauthorized" or "Invalid" answers 401 with the message |
| ErrorHandler.UnauthorizedUpdateGives401 | src/middlewares/error.middleware.ts:18-21 | `errorHandler` classifies "Unauthorized to update this property" as 401, not 403 |
| ErrorHandler.InvalidCredentialsGive401 | src/middlewares/error.middleware.ts:18-21 | `errorHandler` classifies "Invalid credentials" as 401 |
| ErrorHandler.InsufficientGives403 | src/middlewares/error.middleware.ts:23-26 | "Insufficient permissions" answers 403 |
| ErrorHandler.CapitalisedNotFoundGives500 | src/middlewares/error.middleware.ts:13 | matching is case-sensitive: "Not Found" falls through to 500 |
| ErrorHandler.NotPendingGives500 | src/middlewares/error.middleware.ts:29 | `errorHandler` classifies the lifecycle refusal "Request is not in pending status" as 500, with the fixed text |
| Validation.GroupErrors | src/middlewares/validation.middleware.ts:15-22 | the map's keys are exactly the fields that produced errors ("general" for the others), and each key maps to its messages in the original order |
| Validation.MessagesForOthers | src/middlewares/validation.middleware.ts:18-20 | a key no error has collects no messages |
| Validation.Placement | src/middlewares/validation.middleware.ts:16-22 | each error's message sits in its key's list at the position given by the earlier errors with that key |
| Validation.ExactlyOnce | src/middlewares/validation.middleware.ts:15-22 | each key's list is exactly as long as the number of errors with that key |
| Validation.Validate | src/middlewares/validation.middleware.ts:5-26 | goes on iff there is no error; otherwise 400 "Validation failed" with the grouped map |
| Validation.GeneralCollectsOthers | src/middlewares/validation.middleware.ts:17 | every non-field error's message is under "general" |
| Localization.Translate | src/utils/localization.ts:51-53 | a defined non-empty entry is returned; an unknown key returns itself |
| Localization.GetLanguageFromHeader | src/utils/localization.ts:55-58 | absent or empty gives en; rw iff the lower-cased header contains "rw" |
| Localization.SameKeys | src/utils/localization.ts:4-49 | the en and rw tables define the same keys |
| Localization.TwentyKeys | src/utils/localization.ts:5-26 | there are twenty distinct keys |
| Localization.NoEmptyEnglishText | src/utils/localization.ts:5-26 | no en text is empty |
| Localization.NoEmptyKinyarwandaText | src/utils/localization.ts:27-48 | no rw text is empty |
| Localization.DefinedKeysTranslate | src/utils/localization.ts:52 | every defined key translates to its table's text in either language |
| Localization.DefaultIsEnglish | src/utils/localization.ts:51 | the language defaults to en |
| Localization.RwAnywhere | src/utils/localization.ts:57 | "rw" in either case, anywhere in the header and even mid-word, selects rw |

## Left out

- Routes, controllers, the server, the OpenAPI docs, the response envelope, environment loading and the database connection check are left out. They are HTTP wiring and I/O with no decision logic.
- The controllers' input conventions are not modelled. Examples are taking `ownerId` from the token or the body, and parsing query strings into filters. `PropertyFilters` and the DTOs stand for the already-parsed values. An unparsable number (NaN) is `None`.
- The controllers and services spread the request body straight into the store's `create`, through `...req.body` or `...dto`. The property update relays its body unfiltered too. The model does not capture a body that carries extra fields:
  - `UserRepo.UserRepository.Create`, `PropertyRepo.PropertyRepository.Create`, `RequestRepo.RequestRepository.Create` and `CommissionRepo.CommissionRepository.Create` take DTO records that cannot hold `verified`, `status`, `adminId` or other columns. So they always store the schema defaults (unverified, AVAILABLE, PENDING with no admin).
  - In the source, such a body overrides those defaults. A registrant can come out verified, and a request can start CONNECTED or COMPLETED. `RequestService.OnePendingPerPair` and the forward-only lifecycle hold only for requests created without such fields.
  - A property update's body may carry fields beyond the six that `update` names, such as `ownerId`. `PropertyPatch` has only those six fields, so the model does not capture extra fields reaching the store.
- `PropertyRepo.PropertyRepository.Search`, `RequestRepo.RequestRepository.Search`, `CommissionRepo.CommissionRepository.Search` and the `FindAll`/`FindPendingVerification` queries require `page >= 1` and `pageSize >= 0`. That is what `getPaginationParams` produces. The store's behaviour on a negative `skip` or `take` is not modelled.
- Fractional `page`/`pageSize` values are not modelled. The inputs are `Option<int>`.
- `CommissionService.Fee` is exact integer round-half-up, `(amount + 10) / 20`. It assumes the floating-point product `amount * 0.05` rounds like the exact one.
- `Strings.Lower` lowers ASCII letters only. Unicode case mapping is not modelled, in the location filter or in the language header.
- The bcrypt hash and check, and JWT verification, are uninterpreted function parameters. `UserService.LoginAfterRegister` assumes the check accepts every password against its own hash.
- UUID generation, `createdAt` timestamps and schema defaults are assumptions. Ids are fresh parameters; stamps come from a per-table counter. The defaults are request PENDING with no admin, property AVAILABLE, and verified false.
- `UserRepo.UserRepository.Create` requires the phone to be unused. The storage layer's unique-constraint failure is then unreachable and is not an error path of the model; `register` checks the phone before creating.
- Concurrency is not modelled; every operation is sequential. This leaves out:
  - the `Promise.all` pairs of fetch and count;
  - the race between the duplicate check and the insert in `createRequest`;
  - the two non-transactional writes of `completeRequest`.
- `RequestService.RequestService.CompleteRequest` keeps the property write: the property exists by the invariant, so the store never refuses it. A failure between the two writes is not modelled.
- `RequestService.Consistent` covers the user table only by "no user has the empty id" and by the request→tenant references. The request service never writes users. A user table changed by another service between calls is outside the invariant.
- The pass-through service getters are not modelled separately: `getRequests`, `getRequestById`, `searchProperties`, `getPropertyById`, `getCommissions`, `getCommissionById`, `getAllCommissions`, and the user service's `getPendingVerification`/`getAllUsers`. They return the repository result unchanged, which the repository members state.
- The authentication middleware's `next()` runs inside its `try`, so an exception thrown downstream would also produce "Invalid or expired token". `Auth.Authenticate` models only the token decision.
- The `include` clauses (related records joined into results) are left out. They change no stored data.
- `Localization.Translate` and `Validation.GroupErrors` treat keys as plain map keys. In the source both index plain JavaScript objects, and keys such as "constructor", "toString" or "__proto__" find inherited `Object.prototype` members:
  - `translations[lang]?.[key] || key` then returns that member instead of the key;
  - in `validate`, a field path "constructor" finds `errorMap[field]` truthy, and `.push` on a function throws a TypeError.
  
  The model does not capture either behaviour: `Translate` returns the key itself and `GroupErrors` starts a fresh list. No caller shown passes such a key.
- Running the express-validator chains is left out. `Validation.Validate` takes their errors as input.

## Behaviour of the code against the intended rules

Each point below is what the code does where it departs from a rule a reader
might expect. The model follows the code.

- One might expect a tenant to be able to request a property again once the earlier request is completed. The code sets the property to RENTED on completion, so the next request fails with "Property is not available" (`RequestService.RequestService.CompleteThenRequest`).
- Completion should take effect as one unit: the property RENTED and the request COMPLETED together. The code issues the two writes one after the other, outside a transaction.
- Self-registration is meant to exclude the ADMIN role. `register` stores whatever role the DTO carries; only the controller's input validation rejects ADMIN.
- Listings of users are meant to hide password hashes. The user service's `getPendingVerification` returns the repository records as they are; the controller strips the passwords.
- A 5% fee might be expected to round half to even. `Math.round` rounds halves up, so the fee on 10 is 1 and the fee on 30 is 2 (`CommissionService.Fee`).
