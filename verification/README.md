# ManageWise access control and catalogue, modelled in Dafny

ManageWise is a Next.js point-of-sale back office on MongoDB. This project models the part of it that
decides who may do what, and the catalogue routes those decisions guard:

- the bearer-token gates `withAuth` and `withRole`, and the header parsing of `getTokenFromRequest`;
- the two cookie page guards, with their matchers;
- login and registration;
- the `/api/roles`, `/api/permissions`, `/api/users`, `/api/categories`, `/api/brands` and
  `/api/products` handlers;
- the `Permissions` enum and the permission seeder;
- the bootstrap admin seeder and `createAdminUser`;
- the Zod request schemas;
- the Mongoose schemas, as record invariants and the setters (`trim`, `lowercase`) that writes and
  equality filters go through;
- the client-side auth store.

The database is a value. `Db` holds six collections. Each collection is a sequence of rows (`_id`,
record) in insertion order. Every write is a pure function from one `Db` to the next. A handler is a
function from the request's parts to a `Reply`, which is a success status with its body or a
`{ success: false, message }` failure. A handler that writes also returns the database it leaves.

Some things are parameters rather than code:

- JWT verification and signing;
- bcrypt hashing and comparison;
- Zod's e-mail check;
- MongoDB's `$text` search;
- the cookie verifier of `@/utils/auth`;
- the `withPermission` gate.

Every contract about these holds whatever the parameter does.

Each operation is paired with what it should keep or undo:

- every create keeps the store valid (`Store.Valid`: distinct ids, unique indexes, well-formed
  records);
- registration is followed by a login that succeeds;
- seeding the permissions twice creates nothing the second time;
- the gates are characterised in both directions.

Three defects are logged under "## Findings": the brand duplicate check, the bootstrap administrator's
role, and the rename check, which is shared by roles and permissions. In each, the code does not do what
it evidently means. Each is modelled both as written and as intended, and the handlers use the intended
version.

Modules follow the program:

| module | what |
|---|---|
| `Wrappers`, `Text`, `Tables` | `Option`/`Result`, JavaScript string trimming and lowering, collections of rows |
| `Records`, `Store` | the Mongoose models and the collection operations |
| `Jwt`, `AuthMiddleware`, `Http` | tokens, the API gates and the response shapes |
| `PageGuard`, `RootGuard` | `src/middleware.ts` and `src/lib/middleware.ts` |
| `Schemas` | the Zod schemas of `src/schemas` |
| `Pagination`, `Sorting`, `Listings` | `skip`/`limit`, sorting by name, newest-first listing |
| `AuthRoutes`, `RolesRoute`, `PermissionsRoute`, `UsersRoute`, `CategoriesRoute`, `BrandsRoute`, `ProductsRoute` | the route handlers |
| `Taxonomy`, `PermissionSeeder`, `PermissionSeederProperties` | the permission enum and its seeder |
| `AdminSeeder`, `CreateAdminUser` | the two ways the first administrator is made |
| `AuthStore` | the client's zustand auth store |

## Model

| member | source | states |
|---|---|---|
| Jwt.TokenFromHeader | src/utils/jwt.ts:32-39 | a token exists exactly when the header starts with the case-sensitive `Bearer `; the header is that prefix followed by the token |
| Jwt.TokenFromBearerHeader | src/utils/jwt.ts:32-39 | extraction inverts prefixing: the header `Bearer t` yields exactly `t` |
| Jwt.TokenFromHeaderEdges | src/utils/jwt.ts:34-38 | `Bearer ` alone yields the empty token, a lower-case `bearer` and a missing header yield none |
| Jwt.GenerateToken | src/utils/jwt.ts:41-43 | the token is what the signer returns for exactly this payload with a lifetime of 86400 seconds |
| AuthMiddleware.WithAuth | src/lib/authMiddleware.ts:4-33 | no usable token gives 401 "Authentication required"; with one, it is denied exactly when the verifier rejects the token; a success carries the verifier's claims for the header's token; every denial is a 401 |
| AuthMiddleware.NoTokenIgnoresVerifier | src/lib/authMiddleware.ts:5-12 | without a token the verifier is never consulted: any two verifiers give the same 401 |
| AuthMiddleware.EmptyBearerIsMissing | src/lib/authMiddleware.ts:7-12 | the header `Bearer ` counts as having no token |
| AuthMiddleware.WithAuthOnBearer | src/lib/authMiddleware.ts:14-32 | a rejected token gives "Invalid or expired token"; an accepted one gives exactly the decoded claims |
| AuthMiddleware.WithRole | src/lib/authMiddleware.ts:35-54 | `withAuth` failures pass through unchanged; an authenticated identity whose role is not allowed gets 403; a success is `withAuth`'s own result with an allowed role |
| AuthMiddleware.WithRoleEmptyNeverSucceeds | src/lib/authMiddleware.ts:46-51 | with no allowed roles nobody passes |
| AuthMiddleware.WithRoleMonotone | src/lib/authMiddleware.ts:46-51 | allowing more roles never turns a success into a failure |
| AuthMiddleware.WithRoleCharacterization | src/lib/authMiddleware.ts:35-54 | `withRole` succeeds if and only if `withAuth` succeeds with a role in the list |
| PageGuard.Middleware | src/middleware.ts:12-62 | public prefixes always continue; otherwise a missing cookie, a rejected one or a throwing verifier redirect to `/login`; every redirect goes to `/login` or one of the two dashboards |
| PageGuard.AreasRequireRole | src/middleware.ts:40-54 | a request that continues into `/admin` is public or carries a verified `admin` cookie, and likewise for `/cashier` |
| PageGuard.AreaRedirects | src/middleware.ts:42-57 | a cashier leaving `/admin` lands on the cashier dashboard and an admin leaving `/cashier` on the admin dashboard; any other role goes to `/login`; paths outside both areas continue |
| PageGuard.NoRedirectLoop | src/middleware.ts:12-62 | following any redirect with the same cookie continues |
| PageGuard.Guard | src/middleware.ts:65-72 | paths outside the matcher are never intercepted, and those inside get `middleware`'s decision |
| PageGuard.MatcherExcludesLookalikes | src/middleware.ts:65-72 | `/administrator` starts with `/admin` but escapes the matcher, so it is not guarded even without a cookie |
| RootGuard.Middleware | src/lib/middleware.ts:11-53 | the only outcomes are continuing and redirecting to `/login` |
| RootGuard.RootGuardCharacterization | src/lib/middleware.ts:11-53 | a request continues if and only if the path is public or the cookie is present and verifies |
| RootGuard.RoleIrrelevant | src/lib/middleware.ts:39-48 | two verifiers that accept the same cookies decide alike: the role claim never matters |
| RootGuard.Guard | src/lib/middleware.ts:56-62 | with the exact-path matcher only `/` can ever be redirected |
| Text.TrimStart | src/models/User.ts:15-19 | the result is a suffix of the input, everything it drops is whitespace, and it does not start with whitespace |
| Text.TrimEnd | src/models/User.ts:15-19 | the result is a prefix of the input, everything it drops is whitespace, and it does not end with whitespace |
| Text.Trim | src/models/User.ts:15-19 | the `trim: true` setter: the result is no longer than the input and neither starts nor ends with whitespace |
| Text.TrimIsSlice | src/models/User.ts:15-19 | the trimmed value is the slice of the input left after dropping a whitespace run from each end |
| Text.TrimOfTrimmed | src/models/User.ts:15-19 | a string that neither starts nor ends with whitespace is its own trim |
| Text.TrimTrailingSpace | src/models/Role.ts:13-18 | a trimmed name with one trailing space trims back to the name |
| Text.TrimLeadingSpace | src/models/Brand.ts:14-19 | a trimmed name with one leading space trims back to the name |
| Text.TrimIdempotent | src/models/User.ts:15-19 | trimming twice is trimming once, so a stored value re-saves unchanged |
| Text.TrimNoWhitespace | src/models/Permission.ts:13-18 | a string without whitespace is unchanged by the setter |
| Text.Utf16Length | src/schemas/index.ts:4-9 | the length Zod's bounds and `.length` measure: between one and two code units per character, and zero only for the empty string |
| Text.Utf16LengthAppend | src/schemas/index.ts:4-9 | the length of a concatenation is the sum of the lengths |
| Text.Utf16LengthCounts | src/app/api/auth/register/route.ts:30 | the length is the number of characters exactly when no character lies outside the Basic Multilingual Plane, and twice it when every one does |
| Text.ToLowerMeaning | src/models/User.ts:20-26 | lower-casing leaves no upper-case letter, changes exactly the upper-case letters, and fixes exactly the strings without one |
| Text.ToLowerIdempotent | src/models/User.ts:20-26 | lower-casing twice is lower-casing once |
| Text.ToLowerKeepsWhitespace | src/models/User.ts:20-26 | lower-casing neither adds nor removes whitespace anywhere, nor at either end |
| Text.CountSplit | src/app/api/auth/register/route.ts:21-28 | occurrences of a character add up over any split of the string |
| Text.CountZero | src/app/api/auth/register/route.ts:21-28 | a character occurs zero times exactly when no position holds it |
| Text.EmailPatternCharacterization | src/app/api/auth/register/route.ts:21-28 | `/^[^\s@]+@[^\s@]+\.[^\s@]+$/` accepts exactly the strings with no whitespace, one `@` with text before it, and a later `.` with text on both sides |
| Text.EmailPatternSound | src/app/api/auth/login/route.ts:22-29 | a string the pattern matches has no whitespace and exactly one `@` |
| Text.EmailPatternComplete | src/app/api/auth/login/route.ts:22-29 | any such string splits into the three runs the pattern needs |
| Text.OnlyOneOccurrence | src/app/api/auth/register/route.ts:21-28 | a character that occurs once at `a` occurs nowhere else |
| Text.LexTotal | src/app/api/brands/route.ts:95-98 | the code-point order `sort({ name: 1 })` uses is total |
| Records.ParseUserRole | src/models/User.ts:31-35 | the enum validator admits exactly `admin` and `cashier`, and each parses to the role it spells |
| Records.ParseRoleName | src/models/User.ts:31-35 | every role's name parses back to that role |
| Records.NormalizeEmailIdempotent | src/models/User.ts:20-26 | the email setters applied twice change nothing more |
| Records.TrimOptIdempotent | src/models/Role.ts:19-23 | the trim setter on an optional path leaves a trimmed value |
| Records.NewUser | src/models/User.ts:13-44 | a user is created exactly when the trimmed name, the normalised email and the hash are non-empty and the role is absent or in the enum; the record holds the set values, `cashier` and active by default, and is well formed |
| Records.ResaveUser | src/models/User.ts:13-44 | re-saving a well-formed user gives back the same user |
| Records.NewRole | src/models/Role.ts:11-34 | a role is created exactly when its trimmed name is non-empty, with name and description trimmed and the references kept |
| Records.NewPermission | src/models/Permission.ts:11-34 | a permission is created exactly when the trimmed name and feature are non-empty, with all three fields trimmed |
| Records.NewCategory | src/app/api/categories/route.ts:40-44 | a category is created exactly when the name is non-empty; it keeps the fields given and is active |
| Records.NewBrand | src/models/Brand.ts:12-36 | a brand is created exactly when the trimmed name is non-empty; text fields are trimmed and it is active unless told otherwise |
| Records.NewProduct | src/models/Product.ts:18-60 | a product is created exactly when the trimmed name, the category, a price of at least 0 and a stock of at least 0 are present; the record keeps them, trims the description and image, and is active by default |
| Tables.FreshId | src/app/api/roles/route.ts:121-126 | a new `_id` is not in use in the collection |
| Tables.Find | src/app/api/roles/route.ts:178-184 | `findById` finds a record exactly when the id is in use, and what it finds is stored under that id |
| Tables.FindUnique | src/app/api/roles/route.ts:178 | with distinct ids, `findById` returns the one record stored under the id |
| Tables.FindFirst | src/app/api/roles/route.ts:112 | `findOne` finds nothing exactly when no record matches, and what it finds is stored and matches |
| Tables.Filter | src/app/api/roles/route.ts:58 | `find` keeps exactly the stored rows that match, and keeps the ids distinct |
| Tables.FilterAppend | src/app/api/roles/route.ts:65 | a row added at the end is matched after all earlier rows, and only if it matches |
| Tables.FilterAll | src/app/api/users/route.ts:22-27 | a filter that every row meets keeps the whole collection |
| Tables.FilterUnique | src/app/api/brands/route.ts:96 | the rows a query matches in a uniquely indexed collection still have distinct keys |
| Tables.UniqueTail | src/app/api/brands/route.ts:96 | the rows after the first keep the unique index |
| Tables.HeadKeyFresh | src/app/api/brands/route.ts:96 | rows drawn from after the first row differ from it in key |
| Tables.UniqueCons | src/app/api/brands/route.ts:96 | a row whose key differs from every key of a unique collection can be placed in front of it |
| Tables.FindAfterReplace | src/app/api/roles/route.ts:197-201 | after a save, `findById` gives the new record under the saved id when it is in use, and what it gave before under every other id |
| Tables.Remove | src/app/api/roles/route.ts:255 | `findByIdAndDelete` keeps exactly the rows under other ids, and the id is no longer in use |
| Tables.AppendFresh | src/app/api/roles/route.ts:121-126 | an insert under an unused id keeps the ids distinct |
| Tables.AppendUnique | src/models/Role.ts:13-18 | an insert whose key is unused keeps a unique index unique |
| Tables.ReplaceKeeps | src/app/api/roles/route.ts:197-201 | a save keeps the ids, and keeps a unique index when no other row holds the new key |
| Tables.ReplaceKeepsAll | src/app/api/roles/route.ts:197-201 | a save of a record with a property keeps that property true of every record |
| Tables.RemoveKeeps | src/app/api/roles/route.ts:255 | a delete keeps the ids distinct and a unique index unique |
| Tables.ReverseProperties | src/app/api/roles/route.ts:62 | the newest-first order is an involution that keeps every row with its multiplicity |
| Tables.CountIn | src/app/api/roles/route.ts:306-308 | the number of rows whose id is listed is at most the size of the collection |
| Tables.CountInIsIntersection | src/app/api/roles/route.ts:306-308 | with distinct ids, that number is the number of listed ids in use |
| Tables.CountInMatchesAll | src/app/api/roles/route.ts:306-315 | the number equals the length of the list exactly when every listed id is in use and none is listed twice |
| Store.EmptyValid | src/models/Role.ts:11-34 | the empty database meets the store invariant |
| Store.UserByEmail | src/models/User.ts:20-26 | `User.findOne({ email })` normalises the filter with the path's setters; it finds nothing exactly when no user has the normalised address |
| Store.RoleByName | src/models/Role.ts:13-18 | `Role.findOne({ name })` trims the filter; it finds nothing exactly when no role has the trimmed name |
| Store.PermissionByName | src/models/Permission.ts:13-18 | `Permission.findOne({ name })` trims the filter; it finds nothing exactly when no permission has the trimmed name |
| Store.CreateUser | src/models/User.ts:13-47 | a validation failure is reported as such; a valid user is refused exactly when its normalised address is taken; otherwise it is appended under a fresh id |
| Store.AppendUserKeepsValid | src/models/User.ts:20-26 | appending a well-formed user under a fresh id and an unused address keeps the store valid |
| Store.CreateUserKeepsValid | src/models/User.ts:13-47 | creating a user keeps the store valid |
| Store.CreateRole | src/models/Role.ts:11-34 | a role with a blank name fails validation; otherwise it is refused exactly when its trimmed name is taken, else appended trimmed under a fresh id |
| Store.CreateRoleKeepsValid | src/models/Role.ts:11-34 | creating a role keeps the store valid |
| Store.CreatePermission | src/models/Permission.ts:11-38 | a blank name or feature fails validation; otherwise it is refused exactly when its trimmed name is taken, else appended trimmed under a fresh id |
| Store.CreatePermissionKeepsValid | src/models/Permission.ts:11-38 | creating a permission keeps the store valid |
| Store.CreateCategory | src/app/api/categories/route.ts:40-43 | a category fails exactly when its name is empty; otherwise it is appended active under a fresh id |
| Store.CreateCategoryKeepsValid | src/app/api/categories/route.ts:40-43 | creating a category keeps the store valid |
| Store.CreateBrand | src/models/Brand.ts:12-39 | a blank name fails validation; otherwise it is refused exactly when the trimmed name is taken, else appended trimmed and active |
| Store.CreateBrandKeepsValid | src/models/Brand.ts:12-39 | creating a brand keeps the store valid |
| Store.CreateProduct | src/models/Product.ts:18-60 | a product is refused exactly when it fails validation, and is otherwise appended under a fresh id |
| Store.CreateProductKeepsValid | src/models/Product.ts:18-60 | creating a product keeps the store valid |
| Store.SaveRole | src/app/api/roles/route.ts:197-201 | a save fails validation on a blank name; otherwise it is refused exactly when another role holds the trimmed name, else the role is replaced in place |
| Store.SaveRoleKeepsValid | src/app/api/roles/route.ts:197-201 | saving a role keeps the store valid |
| Store.SavePermission | src/app/api/permissions/route.ts:193-198 | a save fails validation on a blank name or feature; otherwise it is refused exactly when another permission holds the trimmed name, else replaced in place |
| Store.SavePermissionKeepsValid | src/app/api/permissions/route.ts:193-198 | saving a permission keeps the store valid |
| Store.DeleteRole | src/app/api/roles/route.ts:255 | deleting a role removes exactly its id from the roles; every other role survives unchanged, no role is added, and no other collection changes |
| Store.DeletePermission | src/app/api/permissions/route.ts:249 | deleting a permission removes exactly its id from the permissions; every other permission survives unchanged, none is added, and no other collection changes |
| Store.DeleteKeepsValid | src/app/api/roles/route.ts:255 | deleting keeps the store valid |
| RolesRoute.FindRole | src/app/api/roles/route.ts:178-184 | `Role.findById(id)` finds a role exactly when an id is given and stored, and finds the one stored under it |
| RolesRoute.List | src/app/api/roles/route.ts:27-87 | the admin gate's failure is passed on; a negative skip is a 500; a page holds only stored roles matching the search on name or description, and the total counts every match; the items are the page window of the matches, newest first |
| RolesRoute.ListEverything | src/app/api/roles/route.ts:41-62 | with no search, page 1 and a limit covering the collection, the admin gets every role, newest first |
| RolesRoute.Create | src/app/api/roles/route.ts:89-153 | after the gate and the schema, 409 exactly when a role already holds the trimmed name; a 500 only for a blank name; otherwise the role is stored trimmed, with no permissions, under a fresh id |
| RolesRoute.CreateKeepsValid | src/app/api/roles/route.ts:121-126 | creating keeps the store valid and the new role is found under its id |
| RolesRoute.CreateTwiceConflicts | src/app/api/roles/route.ts:112-118 | sending the same create again is refused with 409 |
| RolesRoute.Save | src/app/api/roles/route.ts:198-201 | the fields given replace the role's and are trimmed, permissions kept, the role replaced in place; a thrown save is a 500 |
| RolesRoute.RenameAsWritten | src/app/api/roles/route.ts:187-195 | as written: 409 exactly when a new name differs from the stored one as sent and some role, the renamed one included, holds it trimmed |
| RolesRoute.RenameAsWrittenSelfConflict | src/app/api/roles/route.ts:187-195 | renaming a role to its own name plus a space is refused with 409 although no other role holds that name |
| RolesRoute.Rename | src/app/api/roles/route.ts:187-201 | corrected: 409 exactly when the trimmed new name differs from the role's and some role holds it |
| RolesRoute.RenameConflictIsAnotherRole | src/app/api/roles/route.ts:187-201 | in a valid store the corrected rename answers 409 exactly when another role holds the trimmed new name, and a save fails only for a blank name |
| RolesRoute.RenameAcceptsPaddedOwnName | src/app/api/roles/route.ts:187-201 | the corrected rename accepts the padded own name that the handler refuses |
| RolesRoute.ResaveRole | src/app/api/roles/route.ts:198-201 | saving a stored role under its own name always succeeds in a valid store |
| RolesRoute.Update | src/app/api/roles/route.ts:155-228 | gate, then schema, then 404 exactly when the id is missing or unknown, then the rename |
| RolesRoute.UpdateAsWritten | src/app/api/roles/route.ts:155-228 | the handler as written differs from `Update` only past the lookup, where it runs the as-written conflict check |
| RolesRoute.UniqueRoleName | src/models/Role.ts:13-18 | under the unique name index, two roles with one name are one row |
| RolesRoute.RenameKeepsValid | src/app/api/roles/route.ts:198-201 | a completed rename keeps the store valid |
| RolesRoute.Delete | src/app/api/roles/route.ts:230-271 | gate, then 404 exactly when the id is missing or unknown; otherwise exactly that role is removed, every other role keeps its record, nothing is added, and no other collection changes, so users keep stale references |
| RolesRoute.DeleteTwice | src/app/api/roles/route.ts:246-255 | a second delete of the same id finds nothing |
| RolesRoute.SetPermissions | src/app/api/roles/route.ts:306-319 | 404 exactly when the number of stored permissions among the ids differs from the number of ids; otherwise the list replaces the role's permissions |
| RolesRoute.Assign | src/app/api/roles/route.ts:274-346 | gate, schema, then 404 exactly when the role is not found, then the assignment |
| RolesRoute.SetPermissionsCharacterization | src/app/api/roles/route.ts:306-319 | in a valid store assignment succeeds exactly when every id is a stored permission and none repeats, and the role then holds exactly that list and nothing else about it changes |
| PermissionsRoute.FindPermission | src/app/api/permissions/route.ts:174-180 | `Permission.findById(id)` finds a permission exactly when an id is given and stored |
| PermissionsRoute.List | src/app/api/permissions/route.ts:22-85 | the gate's failure is passed on; a negative skip is a 500; a page holds only stored permissions in the feature asked for and matching the search, and the total counts every match; the items are the page window of the matches, newest first |
| PermissionsRoute.ListByFeature | src/app/api/permissions/route.ts:41-48 | a feature filter lists only permissions filed under the trimmed feature |
| PermissionsRoute.Create | src/app/api/permissions/route.ts:87-149 | after gate and schema, 409 exactly when a permission holds the trimmed name; a 500 only for a blank name or feature; otherwise stored trimmed under a fresh id |
| PermissionsRoute.CreateKeepsValid | src/app/api/permissions/route.ts:110-125 | creating keeps the store valid, and the same create sent again is refused with 409 |
| PermissionsRoute.Save | src/app/api/permissions/route.ts:193-198 | the fields given replace the permission's and are trimmed, in place; a thrown save is a 500 |
| PermissionsRoute.RenameAsWritten | src/app/api/permissions/route.ts:182-191 | as written: 409 exactly when a new name differs from the stored one as sent and some permission, the edited one included, holds it trimmed |
| PermissionsRoute.RenameAsWrittenSelfConflict | src/app/api/permissions/route.ts:182-191 | re-sending a permission's own name with a trailing space is refused as a duplicate of itself |
| PermissionsRoute.Rename | src/app/api/permissions/route.ts:182-198 | corrected: 409 exactly when the trimmed new name differs from the permission's and some permission holds it |
| PermissionsRoute.UniquePermissionName | src/models/Permission.ts:13-18 | under the unique name index, two permissions with one name are one row |
| PermissionsRoute.RenameConflictIsAnother | src/app/api/permissions/route.ts:182-198 | in a valid store the corrected rename answers 409 exactly when another permission holds the trimmed new name |
| PermissionsRoute.OwnNameHeldOnce | src/models/Permission.ts:13-18 | in a valid table no other row holds a stored permission's name |
| PermissionsRoute.SaveWithFreeName | src/app/api/permissions/route.ts:193-198 | a save of valid fields whose trimmed name no other row holds succeeds |
| PermissionsRoute.RenameFailsOnlyOnBlank | src/app/api/permissions/route.ts:193-198 | in a valid store the corrected rename fails on save only for a blank name or feature |
| PermissionsRoute.RenameAcceptsPaddedOwnName | src/app/api/permissions/route.ts:182-198 | the corrected rename accepts the padded own name that the handler refuses |
| PermissionsRoute.ResavePermission | src/app/api/permissions/route.ts:193-198 | saving a stored permission under its own name with a non-blank feature succeeds |
| PermissionsRoute.Update | src/app/api/permissions/route.ts:151-222 | gate, then schema, then 404 exactly when the id is missing or unknown, then the rename |
| PermissionsRoute.UpdateAsWritten | src/app/api/permissions/route.ts:151-222 | the handler as written differs from `Update` only past the lookup, where it runs the as-written conflict check |
| PermissionsRoute.RenameKeepsValid | src/app/api/permissions/route.ts:193-198 | a completed rename keeps the store valid |
| PermissionsRoute.Delete | src/app/api/permissions/route.ts:224-265 | gate, then 404 exactly when the id is missing or unknown; otherwise exactly that permission is removed, every other permission keeps its record, nothing is added, and no other collection changes |
| PermissionsRoute.DeleteLeavesDanglingReference | src/app/api/permissions/route.ts:249 | a role that listed the deleted permission still lists it |
| UsersRoute.RoleFilter | src/app/api/users/route.ts:39-44 | the role filter is set exactly when the parameter is non-empty and a role holds its trimmed name, and then it is that role's id |
| UsersRoute.List | src/app/api/users/route.ts:10-80 | the `users.view` gate's failure is passed on; a negative skip is a 500; every listed user is a stored, active, matching user without the hash, and the total counts every match; the items are the page window of the matches, newest first, each without its hash |
| UsersRoute.ListOnlyActive | src/app/api/users/route.ts:29-30 | a deactivated user is never listed |
| UsersRoute.UnknownRoleIgnored | src/app/api/users/route.ts:39-44 | a role name no role holds changes nothing in the answer |
| UsersRoute.Enroll | src/app/api/users/route.ts:101-136 | 409 exactly when a user already has the normalised address; a 500 only for a blank name, address or hash; otherwise an active cashier with the given role ids is stored under a fresh id and answered with its id, name, address, role ids and active flag, without the hash or the `role` |
| UsersRoute.Create | src/app/api/users/route.ts:82-144 | the `users.create` gate, then the registration schema, then enrolment |
| UsersRoute.EnrollKeepsValid | src/app/api/users/route.ts:114-119 | enrolling keeps the store valid |
| UsersRoute.EnrolledUserListedFirst | src/app/api/users/route.ts:50-55 | an enrolled user heads the next unfiltered listing as a `cashier`, with the fields the create response showed |
| UsersRoute.AppendedHeadsList | src/app/api/users/route.ts:50-55 | an active user stored last heads the first page of the unfiltered listing |
| UsersRoute.NewestHeadsListing | src/app/api/users/route.ts:52-54 | a row stored last and kept by the filter comes first newest-first |
| CategoriesRoute.ViewPage | src/app/api/categories/route.ts:96-120 | the views of a name-ordered page stay in name order and each is the view of a row of the page; every row of the page is viewed, in order |
| CategoriesRoute.List | src/app/api/categories/route.ts:69-132 | the `categories.view` gate's failure is passed on; a negative skip is a 500; every listed category is a stored, matching one, the page is in name order, and the total counts every match; the items are the page window of the matches sorted by name |
| CategoriesRoute.SameNameIgnoringCase | src/app/api/categories/route.ts:32 | the duplicate lookup finds a category exactly when one has the name up to letter case |
| CategoriesRoute.Insert | src/app/api/categories/route.ts:31-59 | 409 exactly when a category has the name up to case; a 500 exactly for an empty free name; otherwise the category is stored active under a fresh id |
| CategoriesRoute.Create | src/app/api/categories/route.ts:9-67 | the `categories.create` gate, then the schema, then the insert |
| CategoriesRoute.InsertKeepsCaseUnique | src/app/api/categories/route.ts:31-44 | inserting keeps the store valid and the names unique up to case |
| CategoriesRoute.CreateTwiceConflicts | src/app/api/categories/route.ts:31-38 | once a category exists, any name equal to it up to case is refused with 409 |
| BrandsRoute.ViewPage | src/app/api/brands/route.ts:96-120 | the views of a name-ordered page stay in name order and each is the view of a row of the page; every row of the page is viewed, in order |
| BrandsRoute.List | src/app/api/brands/route.ts:69-132 | the `brands.view` gate's failure is passed on; a negative skip is a 500; every listed brand is a stored, matching one, the page is in name order, and the total counts every match; the items are the page window of the matches sorted by name |
| BrandsRoute.SameNameIgnoringCase | src/app/api/brands/route.ts:32 | the duplicate lookup finds a brand exactly when one has the name up to letter case |
| BrandsRoute.InsertAsWritten | src/app/api/brands/route.ts:31-44 | as written: 409 exactly when a brand has the name as sent up to case; a 500 exactly when that misses but the trimmed name is blank or already stored; otherwise the brand is stored trimmed and active |
| BrandsRoute.Insert | src/app/api/brands/route.ts:31-44 | corrected: 409 exactly when a brand has the trimmed name up to case; a 500 only for a blank name; otherwise stored trimmed and active |
| BrandsRoute.CreateAsWritten | src/app/api/brands/route.ts:9-67 | the `brands.create` gate, then the schema, then the as-written insert |
| BrandsRoute.Create | src/app/api/brands/route.ts:9-67 | the same, with the corrected insert |
| BrandsRoute.PaddedMatchesNothing | src/app/api/brands/route.ts:32 | a name with a space in front matches no stored (trimmed) brand name up to case |
| BrandsRoute.AsWrittenPaddedNameIsServerError | src/app/api/brands/route.ts:31-44 | as written, a stored brand's name with a space in front is a 500 from the unique index; the corrected insert answers 409 |
| BrandsRoute.LowerNameIsFree | src/models/Brand.ts:14-19 | with names unique up to case, the lower-cased form of a name that is not all lower case is nobody's exact name |
| BrandsRoute.AsWrittenStoresLowered | src/app/api/brands/route.ts:31-44 | as written, a stored brand's lower-cased name with a space in front passes both checks and is stored trimmed |
| BrandsRoute.AsWrittenInsertsUnmatched | src/app/api/brands/route.ts:31-44 | as written, a name that matches nothing up to case and whose trim is free and not blank is stored trimmed |
| BrandsRoute.AsWrittenAdmitsCaseDuplicate | src/app/api/brands/route.ts:31-44 | as written, two brands whose names differ only in case can end up stored; the corrected insert refuses the request with 409 |
| BrandsRoute.CaseClash | src/app/api/brands/route.ts:32 | two rows whose names differ in case only break uniqueness up to case |
| BrandsRoute.CorrectedRefusesLowered | src/app/api/brands/route.ts:31-38 | the corrected insert refuses a stored name lower-cased and padded with 409 |
| BrandsRoute.InsertKeepsCaseUnique | src/app/api/brands/route.ts:31-44 | the corrected insert keeps the store valid and brand names unique up to case |
| BrandsRoute.AppendKeepsCaseUnique | src/app/api/brands/route.ts:41-44 | storing a name that equals no stored name up to case keeps names unique up to case |
| BrandsRoute.CreateTwiceConflicts | src/app/api/brands/route.ts:31-38 | once a brand is created, any name whose trim equals it up to case is refused with 409 |
| Schemas.RegistrationCredentialsPassLogin | src/schemas/index.ts:4-14 | credentials the registration schema accepts pass the login schema too |
| Schemas.RegistrationBoundsInclusive | src/schemas/index.ts:4-9 | the registration bounds are inclusive and count UTF-16 code units: a name of 1 to 100 units and a password of at least 6 |
| Schemas.AstralPasswordLongEnough | src/schemas/index.ts:7 | a password of three characters outside the Basic Multilingual Plane already has the six code units the schema asks for |
| Schemas.AstralNameTooLong | src/schemas/index.ts:16-25 | a category or brand name of 26 such characters is 52 units and exceeds the 50-unit bound, although it has fewer than 50 characters |
| Schemas.AstralRegistrationNameTooLong | src/schemas/index.ts:5 | a registration name of 51 such characters is 102 units and exceeds the 100-unit bound, although it has fewer than 100 characters |
| Schemas.RoleCreateIsUpdate | src/app/api/roles/route.ts:10-19 | a body the role create schema accepts, the update schema accepts |
| Schemas.FeatureUnrelatedToName | src/app/api/permissions/route.ts:9-13 | the permission schema does not tie the feature to the name's prefix |
| Schemas.ProductCreateIsUpdate | src/schemas/index.ts:29-48 | a valid product create body is a valid update body whatever `isActive` says, and the empty update is valid |
| Schemas.StockMustBeWhole | src/schemas/index.ts:34 | a fractional or negative stock makes any product body invalid, and a whole stock of at least 0 keeps a valid body valid |
| ProductsRoute.Insert | src/app/api/products/route.ts:30-74 | 404 for an unknown category, then 404 for a named but unknown brand; a 500 exactly when both resolve but the name is blank; otherwise the product is stored trimmed and active under a fresh id |
| ProductsRoute.Create | src/app/api/products/route.ts:10-82 | the admin gate's failure is passed on, then the schema, then the insert |
| ProductsRoute.CreateKeepsReferences | src/app/api/products/route.ts:32-62 | creating keeps the store valid and every product's category, and brand when named, stored |
| ProductsRoute.InsertKeepsReferences | src/app/api/products/route.ts:32-62 | the insert after the schema keeps the store valid and every reference resolving |
| ProductsRoute.AppendKeepsReferences | src/models/Product.ts:25-33 | storing a product whose references resolve keeps every reference resolving |
| ProductsRoute.List | src/app/api/products/route.ts:84-139 | open to everyone; a negative skip is a 500; every listed product is stored, active and matching, the page is in name order, and the total counts every match; the items are the page window of the matches sorted by name |
| ProductsRoute.ListOnlyActiveInCategory | src/app/api/products/route.ts:96-104 | a deactivated product is never listed, and a category filter lists only that category |
| ProductsRoute.CreatedProductIsCounted | src/app/api/products/route.ts:54-62 | a created product counts towards the total of its category's listing |
| Pagination.PageCount | src/app/api/roles/route.ts:75 | `Math.ceil(total / limit)` is the least whole number of pages of `limit` that hold `total`; a zero limit gives no number, a negative one the ceiling of a negative quotient; no documents means zero pages |
| Pagination.Take | src/app/api/roles/route.ts:60-61 | `.limit(limit)` passes at most the available documents, all of them for 0, and at most the absolute value otherwise |
| Pagination.Page | src/app/api/roles/route.ts:43-61 | the page is the run of matches that starts after `(page - 1) * limit` of them and is as long as the limit lets through |
| Pagination.ItemOnItsPage | src/app/api/roles/route.ts:41-61 | every match is listed on page `i / limit + 1` at position `i % limit` |
| Pagination.PageNonEmptyIff | src/app/api/roles/route.ts:41-75 | with a positive limit a page holds documents exactly when its number is between 1 and the reported page count |
| Pagination.PageBelowOneRejected | src/app/api/roles/route.ts:41-43 | with a positive limit a page number below 1 makes the skip negative |
| Pagination.Paginate | src/app/api/roles/route.ts:41-85 | a negative skip is the handler's 500; otherwise the page of the matches and a pagination object counting every match |
| Pagination.NoLimitListsAll | src/app/api/roles/route.ts:42-61 | `limit=0` lists every match and reports no page count |
| Sorting.InsertBy | src/app/api/categories/route.ts:97 | inserting into a name-ordered sequence keeps it ordered and adds exactly the one row |
| Sorting.InsertBehindHead | src/app/api/categories/route.ts:97 | a row that does not precede the head goes behind it and keeps the order |
| Sorting.LexTransitiveFrom | src/app/api/categories/route.ts:97 | a name that precedes the head of an ordered sequence precedes every element |
| Sorting.LexTransitive | src/app/api/categories/route.ts:97 | the code-point order of names is transitive |
| Sorting.SortBy | src/app/api/categories/route.ts:97 | `.sort({ name: 1 })` yields the same rows, as a permutation, in name order |
| Sorting.LexAntisymmetric | src/app/api/categories/route.ts:97 | two names that each precede the other are equal, so the code-point order is a total order |
| Sorting.SortedPermutationUnique | src/app/api/categories/route.ts:97 | two name-ordered arrangements of the same rows are equal when no two rows share a name |
| Sorting.DistinctKeysOnce | src/app/api/categories/route.ts:97 | in rows with distinct names, each row occurs once |
| Sorting.TwiceCounted | src/app/api/categories/route.ts:97 | a row found at two positions occurs at least twice |
| Sorting.SortByIsTheOrder | src/app/api/categories/route.ts:97 | when names are distinct, every result `.sort({ name: 1 })` may give is the model's order |
| Listings.NewestFirst | src/app/api/roles/route.ts:58-65 | a negative skip fails; otherwise the page holds only stored matching rows, no more than match, and the total counts every match; the items are the `(page - 1) * limit` window of the matches newest first |
| Listings.NewestFirstWholeTable | src/app/api/roles/route.ts:58-62 | with a filter every row passes and a large enough page, the whole table is listed latest first |
| Listings.SortedByName | src/app/api/categories/route.ts:96-97 | rows ordered by the name key have their names in order |
| Listings.ByName | src/app/api/categories/route.ts:96-102 | a negative skip fails; otherwise the page holds only stored matching rows, in name order, and the total counts every match; the items are the `(page - 1) * limit` window of the matches sorted by name |
| Listings.ByNameOrderForced | src/app/api/brands/route.ts:96-102 | over a uniquely indexed name (brands), every name-ordered arrangement of the matches gives the page `ByName` lists, so the model's tie order decides nothing there |
| Listings.PageKeepsOrder | src/app/api/categories/route.ts:97-99 | a window of an ordered sequence is ordered |
| AuthRoutes.Authenticate | src/app/api/auth/login/route.ts:30-81 | a refusal is "invalid credentials" or "account deactivated"; a success is for a stored, active user under the normalised address whose hash accepts the password, echoed without its hash with a one-day token over its id, address and role |
| AuthRoutes.Login | src/app/api/auth/login/route.ts:7-89 | 400 for a missing field, then 400 for an address the pattern refuses, then the account checks; every refusal is a 400 or a 401 |
| AuthRoutes.AuthenticateCharacterization | src/app/api/auth/login/route.ts:30-54 | with unique emails, the account checks pass exactly when the user under the address is active and the password matches; an unknown address is answered like a wrong password |
| AuthRoutes.LoginCharacterization | src/app/api/auth/login/route.ts:14-54 | a well-formed request logs in exactly when the account checks pass |
| AuthRoutes.UniqueEmailRow | src/models/User.ts:20-26 | under the unique email index, two users with one address are one row |
| AuthRoutes.DeactivatedNeverLogsIn | src/app/api/auth/login/route.ts:40-45 | a deactivated account is refused as deactivated whatever the password |
| AuthRoutes.Register | src/app/api/auth/register/route.ts:6-79 | 400 for a missing field, a refused address or a password under 6 code units, in that order; once those pass, 409 exactly when the normalised address is taken and 500 exactly when it is free and the model refuses the document; a success stores the new user under a fresh id and echoes it without its hash |
| AuthRoutes.RegisterRole | src/app/api/auth/register/route.ts:50-55 | a registration yields `cashier` when no role is asked for, and otherwise exactly the role asked for, which must be `admin` or `cashier` |
| AuthRoutes.RegisterKeepsValid | src/app/api/auth/register/route.ts:50-55 | registering keeps the store valid |
| AuthRoutes.RegisterThenLogin | src/app/api/auth/register/route.ts:38-55 | a newly registered account, with a hash that accepts its password, logs straight in as the user just created |
| CreateAdminUser.FindOrCreate | src/utils/createAdminUser.ts:5-34 | a user already under the address is answered as found with nothing written; otherwise the call fails, with a validation error passed on, exactly when the name, address or hash is blank, and else stores an active `admin` with no role references under a fresh id |
| CreateAdminUser.EnsureAdmin | src/utils/createAdminUser.ts:10-26 | an existing `admin@example.com` user is answered unchanged; otherwise the call succeeds exactly when the hash is non-empty; what it answers with is stored under the address |
| CreateAdminUser.FoundUnderAddress | src/utils/createAdminUser.ts:10-29 | whatever a completed call answers with is stored under the normalised address |
| CreateAdminUser.FindOrCreateIdempotent | src/utils/createAdminUser.ts:10-14 | a second call, with any hash, answers the same user and writes nothing |
| CreateAdminUser.SameEmailSameRow | src/models/User.ts:20-26 | under the unique email index, two users with one address are one row |
| CreateAdminUser.ExactlyOneUnderAddress | src/utils/createAdminUser.ts:10-29 | in a valid store, after a completed call the store is valid and the answered user is the only one under the address |
| CreateAdminUser.CreatesAsSpelled | src/utils/createAdminUser.ts:20-26 | on a store without the address, a name and address already in stored form are stored as given, and a non-empty hash is all the call needs |
| CreateAdminUser.EnsureAdminCreates | src/utils/createAdminUser.ts:10-26 | on a store without `admin@example.com`, the call succeeds exactly when the hash is non-empty and creates `Admin User` there, active, as `admin` |
| CreateAdminUser.CreatedAdminPassesAdminGate | src/utils/createAdminUser.ts:20-26 | on a store without the admin address, every token carrying the created user's claims passes `withRole(['admin'])` |
| CreateAdminUser.EnsureAdminKeepsSeededCashier | src/utils/createAdminUser.ts:10-14 | after the bootstrap of the admin seeder, the call finds its user, writes nothing, and leaves it a cashier |
| AuthStore.Login | src/stores/authStore.ts:26-34 | after `login` the store holds exactly that user and token and is authenticated, whatever came before |
| AuthStore.Logout | src/stores/authStore.ts:35-41 | after `logout` the store holds no user and no token and is not authenticated |
| AuthStore.UpdateUser | src/stores/authStore.ts:42-44 | `updateUser` keeps the token and the flag, keeps a user exactly when there was one, and keeps the invariant |
| AuthStore.InitialConsistent | src/stores/authStore.ts:23-25 | the initial state keeps the invariant and is not authenticated |
| AuthStore.MergeChangesSupplied | src/stores/authStore.ts:43 | the spread changes exactly the fields the patch supplies, to the supplied values |
| AuthStore.UpdatesCompose | src/stores/authStore.ts:42-44 | two updates are one with the later patch winning; the empty patch changes nothing; an update applied twice is applied once |
| AuthStore.UpdateAfterLogout | src/stores/authStore.ts:35-44 | after a logout no update brings a user back |
| AuthStore.RunKeepsConsistent | src/stores/authStore.ts:20-50 | every sequence of calls keeps the flag, the token and the user present together |
| AuthStore.UpdatesKeepLogin | src/stores/authStore.ts:42-44 | updates alone never log anyone in or out or change the token |
| AuthStore.LoginThenUpdates | src/stores/authStore.ts:26-44 | after a login followed by updates only, the token is that login's and the store is authenticated |
| Taxonomy.Before | src/database/permission-seeder.ts:21 | `s.split(c)[0]` is the longest prefix without `c`: all of `s` when it has none, otherwise the part before the first `c` |
| Taxonomy.ReplaceFirst | src/schemas/permissions.ts:1-39 | replacing the first underscore keeps the length |
| Taxonomy.ReplaceAll | src/database/permission-seeder.ts:31 | `replace(/_/g, ' ')` changes every underscore, and only underscores, into a space |
| Taxonomy.ToUpperRoundTrip | src/schemas/permissions.ts:1-39 | upper-casing leaves no lower-case letter, and lower-casing gives back a string that had no upper-case letter |
| Taxonomy.FeatureSpelling | src/schemas/permissions.ts:1-39 | every feature is spelled in lower-case letters, non-empty, and is one of the six |
| Taxonomy.ActionSpelling | src/schemas/permissions.ts:1-39 | every action is spelled in lower-case letters and underscores, non-empty |
| Taxonomy.NamesInjective | src/schemas/permissions.ts:1-39 | different features, and different actions, are spelled differently |
| Taxonomy.ReplaceFirstAfter | src/schemas/permissions.ts:1-39 | the first underscore after a prefix without one is the one replaced |
| Taxonomy.BeforeFirst | src/database/permission-seeder.ts:21 | the part before the first dot of `p.rest`, with no dot in `p`, is `p` |
| Taxonomy.Halves | src/database/permission-seeder.ts:21 | the feature and the action of `f.a` are `f` and `a` |
| Taxonomy.OneDot | src/schemas/permissions.ts:1-39 | `f.a` with no dot in either half has exactly one dot |
| Taxonomy.SpelledNameWellFormed | src/schemas/permissions.ts:1-39 | `f.a` with a known feature `f` and a non-empty action `a` has the `<feature>.<action>` shape |
| Taxonomy.ValueWellFormed | src/schemas/permissions.ts:1-39 | every enum value has the `<feature>.<action>` shape, with the member's own feature and action |
| Taxonomy.KeySpelling | src/schemas/permissions.ts:1-39 | `F_A` upper-cased becomes `f.a` under the naming convention |
| Taxonomy.KeyGivesValue | src/schemas/permissions.ts:1-39 | every enum value is its key lower-cased with the first underscore made a dot |
| Taxonomy.ValueInjective | src/schemas/permissions.ts:1-39 | two members with the same value are the same member |
| Taxonomy.EntriesDistinct | src/schemas/permissions.ts:1-39 | the enum lists no member twice |
| Taxonomy.TaxonomyWellFormed | src/schemas/permissions.ts:1-39 | the enum has 26 members with distinct values, each following the naming convention and the `<feature>.<action>` shape |
| PermissionSeeder.SpelledTrimmed | src/models/Permission.ts:13-29 | a non-empty string of letters, underscores and dots is its own trim |
| PermissionSeeder.NameTrimmed | src/database/permission-seeder.ts:19-32 | a member's name and feature are non-empty and already trimmed, and the feature is the name's part before the dot |
| PermissionSeeder.DescriptionTrimmed | src/database/permission-seeder.ts:31 | a seeded description is already trimmed |
| PermissionSeeder.SeedingWellFormed | src/database/permission-seeder.ts:28-32 | the record seeded for each member passes the permission model as it stands |
| PermissionSeeder.CreateListed | src/database/permission-seeder.ts:28-32 | `Permission.create` of a well-formed record whose name is free inserts exactly it under a fresh id |
| PermissionSeeder.CreateTaken | src/models/Permission.ts:13-18 | `Permission.create` of a record whose name is taken fails on the unique name index |
| PermissionSeeder.LookupListed | src/database/permission-seeder.ts:24 | `findOne({ name })` of a seeded name finds a permission exactly when one is called that |
| PermissionSeeder.Seedings | src/database/permission-seeder.ts:18-32 | one record per member, in order, each the member's seeding and well formed |
| PermissionSeeder.Append | src/database/permission-seeder.ts:28-32 | the insert keeps every earlier row and adds the record under an unused id |
| PermissionSeeder.CreateFreshAppends | src/database/permission-seeder.ts:28-32 | a create of a well-formed record with a free name succeeds and changes only the permission collection, to that append |
| PermissionSeeder.SeedPass | src/database/permission-seeder.ts:18-39 | the loop as a reference on the collection: the counts add up to the records seen, one created per row added, earlier rows kept, and every added row one of the records |
| PermissionSeeder.SeedFrom | src/database/permission-seeder.ts:18-39 | the loop over the store never fails on well-formed records and agrees with the reference pass on the permission collection, touching nothing else |
| PermissionSeeder.Seed | src/database/permission-seeder.ts:6-50 | `seedPermissions()` completes, created plus skipped is 26, earlier permissions are kept, and only the permission collection changes |
| PermissionSeederProperties.PassCovers | src/database/permission-seeder.ts:18-39 | after the pass every record's name is taken |
| PermissionSeederProperties.PassSkipsPresent | src/database/permission-seeder.ts:26-38 | when every name is taken the pass changes nothing and skips everything |
| PermissionSeederProperties.PassKeepsValid | src/database/permission-seeder.ts:18-39 | the pass keeps ids distinct, names unique and every record well formed |
| PermissionSeederProperties.SeedIsPass | src/database/permission-seeder.ts:6-50 | the seeder is the reference pass over the taxonomy's records on the permission collection |
| PermissionSeederProperties.PassCoversEntries | src/database/permission-seeder.ts:18-39 | after the pass over some members' seedings, every member's name is taken |
| PermissionSeederProperties.SeedCoversTaxonomy | src/database/permission-seeder.ts:6-50 | after seeding every member of the enum has its permission |
| PermissionSeederProperties.SeedKeepsStoreValid | src/database/permission-seeder.ts:6-50 | seeding keeps the store valid |
| PermissionSeederProperties.SeedingOf | src/database/permission-seeder.ts:18-32 | each seeded record is the seeding of some member |
| PermissionSeederProperties.SeedAddsOnlyTaxonomy | src/database/permission-seeder.ts:18-39 | seeding keeps the earlier permissions as they were and adds only seedings of enum members after them |
| PermissionSeederProperties.SeedIdempotent | src/database/permission-seeder.ts:6-50 | a second seeding creates nothing, changes nothing and skips all 26 |
| AdminSeeder.BootstrapDocs | src/database/admin-seeder.ts:12-27 | the bootstrap lists 14 documents, one per `users`, `roles` and `permissions` member, in enum order |
| AdminSeeder.Stored | src/models/Permission.ts:11-34 | an admissible document is stored in a form the permission model accepts |
| AdminSeeder.FirstInvalid | src/database/admin-seeder.ts:12 | no validation error exactly when every document is admissible; an error reported is one a listed document raises |
| AdminSeeder.Validate | src/database/admin-seeder.ts:12 | `insertMany` validates every document before writing: it proceeds exactly when all are admissible, with each document in stored form |
| AdminSeeder.StoredAsIs | src/models/Permission.ts:11-34 | a document already in stored form is admissible and stored as it is |
| AdminSeeder.ValidateStored | src/database/admin-seeder.ts:12 | documents already in stored form pass validation unchanged |
| AdminSeeder.Rows | src/database/admin-seeder.ts:12-27 | the rows appended are the documents, in order, under the ids given |
| AdminSeeder.InsertOrdered | src/database/admin-seeder.ts:12-27 | an ordered insert yields one id per document, and its only failure is the duplicate name |
| AdminSeeder.InsertMany | src/database/admin-seeder.ts:12-27 | a validation failure writes nothing; otherwise the ordered inserts of the stored documents |
| AdminSeeder.InsertOrderedShape | src/database/admin-seeder.ts:12-27 | the ordered inserts change only the permissions, and on success append one row per document in order |
| AdminSeeder.NamedAfterInsert | src/models/Permission.ts:13-18 | a name is taken after an insert exactly when it was taken before or is the new row's |
| AdminSeeder.RestStillFree | src/database/admin-seeder.ts:12-27 | after the first of some distinct free documents is written, the rest stay insertable and free |
| AdminSeeder.InsertOrderedSucceeds | src/database/admin-seeder.ts:12-27 | distinct documents with free names are all written |
| AdminSeeder.OrderedTaken | src/database/admin-seeder.ts:12-27 | a first document with a taken name stops the inserts at once, writing nothing |
| AdminSeeder.OrderedFree | src/database/admin-seeder.ts:12-27 | a first document with a free name is written and the rest follow on the store it leaves |
| AdminSeeder.InsertOrderedMeetsTaken | src/database/admin-seeder.ts:12-27 | any document whose name is already stored makes the inserts fail |
| AdminSeeder.BootstrapDocStored | src/database/admin-seeder.ts:13-26 | each listed document is in stored form and its written-out feature is its name's part before the dot |
| AdminSeeder.BootstrapDocsStored | src/database/admin-seeder.ts:12-27 | every listed document is in stored form, with no description and the feature its name starts with |
| AdminSeeder.BootstrapDocsDistinct | src/database/admin-seeder.ts:12-27 | no two listed documents share a name |
| AdminSeeder.BootstrapDocsShape | src/database/admin-seeder.ts:12-27 | the listed documents are insertable |
| AdminSeeder.UserDocument | src/database/admin-seeder.ts:37-43 | a user document in stored form passes validation as given, as a cashier when it sets no role and an admin when it sets `admin` |
| AdminSeeder.AdminUserSpelled | src/database/admin-seeder.ts:38-39 | `Admin User` and `admin@example.com` are already in stored form |
| AdminSeeder.AdminRoleSpelled | src/database/admin-seeder.ts:30-34 | `admin` and `Administrator` are already in stored form |
| AdminSeeder.AdminSeedsSpelled | src/database/admin-seeder.ts:30-43 | every value the bootstrap writes is in stored form |
| AdminSeeder.FreshPermissions | src/database/admin-seeder.ts:12-27 | on a store without the names, all documents are written in order and nothing else changes |
| AdminSeeder.RoleCreated | src/database/admin-seeder.ts:30-34 | a role in stored form with a free name is created as given |
| AdminSeeder.UserCreated | src/database/admin-seeder.ts:37-43 | a user document valid as given at a free address is created as given |
| AdminSeeder.NamedUserCreated | src/database/admin-seeder.ts:37-43 | a user in stored form at a free address is created with the role the document sets |
| AdminSeeder.BootstrapWith | src/database/admin-seeder.ts:8-44 | the bootstrap touches no categories, brands or products; when it completes it appends one role and one active user that lists it, whose `role` is the document's, `cashier` by default |
| AdminSeeder.SeedAdminAsWritten | src/database/admin-seeder.ts:37-43 | as written, a completed bootstrap on any store appends its user as a `cashier` |
| AdminSeeder.SeedAdmin | src/database/admin-seeder.ts:37-43 | with `role: 'admin'` set, a completed bootstrap on any store appends its user as an `admin` |
| AdminSeeder.BootstrapOnFreshStore | src/database/admin-seeder.ts:8-44 | on a fresh store the bootstrap completes: the documents, one role holding exactly their ids, and one active user listing that role, whose `role` is the document's, `cashier` by default; nothing else changes |
| AdminSeeder.AppendedUserFound | src/models/User.ts:20-26 | a user appended at a free address is the one found there |
| AdminSeeder.BootstrapUserFound | src/database/admin-seeder.ts:37-43 | after a bootstrap on a fresh store, the user at its address is the one it created, with the document's role |
| AdminSeeder.CashierRefused | src/lib/authMiddleware.ts:35-54 | a token with a cashier's claims is refused by `withRole(['admin'])` with 403 |
| AdminSeeder.AdminAdmitted | src/lib/authMiddleware.ts:35-54 | a token with an admin's claims passes `withRole(['admin'])` |
| AdminSeeder.AsWrittenAdminIsLockedOut | src/database/admin-seeder.ts:37-43 | as written, the bootstrap administrator is stored as a cashier, and every token carrying its claims gets 403 from the admin gate |
| AdminSeeder.SeedAdminPassesAdminGate | src/database/admin-seeder.ts:37-43 | with `role: 'admin'` set, the bootstrap administrator is an admin and passes the admin gate with every token carrying its claims |
| AdminSeeder.BootstrapMeetsTakenName | src/database/admin-seeder.ts:12-27 | with any listed name already stored the bootstrap fails, writing nothing when it is the first |
| AdminSeeder.BootstrapKeepsPermissions | src/database/admin-seeder.ts:12-43 | a completed bootstrap changes the permissions only by the listed rows |
| AdminSeeder.BootstrapNotIdempotent | src/database/admin-seeder.ts:8-44 | after a completed run a second run fails and writes nothing |
| AdminSeeder.SeedAdminNotIdempotent | src/database/admin-seeder.ts:8-46 | the admin seeder run a second time fails and writes nothing |

## Left out

- JWT signing and verification are parameters (`Verifier`, `Signer`): `verifyToken` is a total function to optional claims, so it never throws, and `generateToken` is modelled only as the request it makes (the claims and the one-day lifetime).
- bcrypt is a parameter: `hashPassword` appears as the hash it produced, and `comparePasswords` as a predicate. The only thing assumed of it is that it accepts a password against its own hash, where a lemma needs that.
- Zod's `.email()` is a parameter (`EmailCheck`), and `handleZodError` is the single `ValidationFailed` reply, because `src/utils/validation.ts` is not part of this model.
- `withPermission` is a parameter (`PermissionGate`), because its definition is not part of this model. The users, categories and brands contracts hold for every gate.
- The cookie verifier of `@/utils/auth` used by both page guards is a parameter, and a verifier that throws is modelled as one that rejects.
- Cookies, `document.cookie`, headers beyond `Authorization`, `process.env`, `dbConnect` and `console` output are I/O and are not modelled.
- The zustand `persist` middleware is left out. Its rehydration from `localStorage` is I/O.
- AuthStore.UpdateUser: a patch key present with the value `undefined` overwrites the field in JavaScript's spread; the model treats it as absent, because a patch is a record of optional fields.
- `populate` is left out. Listings return the stored references (ids), not the documents they name.
- `$regex` filters are modelled as case-insensitive substring (search) or whole-string (duplicate check) matches. This holds only for names and searches without regular-expression metacharacters. The handlers do not escape them.
- Lower-casing (`ToLower`, the `lowercase` setter and the `i` flag) is modelled on ASCII letters only. JavaScript's full Unicode case mapping is not modelled.
- MongoDB's `$text` search over the product name index is a parameter (`TextSearch`): tokenising, stemming and stop words belong to the database.
- `parseInt` is modelled by the integer it produced: a `NaN` page or limit is not modelled. Zero and negative limits are, as MongoDB treats them.
- Ids are strings the store hands out. ObjectId casting is not modelled, and neither is a `CastError` for an id that is not an ObjectId (the handlers' `catch` would answer 500): such an id is simply not found.
- Listings.ByName, ProductsRoute.List, CategoriesRoute.List, BrandsRoute.List: rows with equal names are listed in insertion order. MongoDB does not promise any order among documents with equal sort keys, nor the same order across `skip`/`limit` pages. Product names are not unique, so two products of the same name may come back in either order, and `Pagination.ItemOnItsPage` does not carry over to them across pages. Brand names are uniquely indexed, and there `Listings.ByNameOrderForced` shows the order is the only one possible. Category names are unique up to case as the category route inserts them.
- The login and register handlers read `request.json()` with no schema. The model assumes the body is a JSON object whose present fields are strings (`LoginBody`, `RegisterBody`). A body that is not JSON (answered 500 by the `catch`) and fields of another JSON type (which `emailRegex.test` and the lookups would coerce or pass on) are not modelled.
- `createdAt` and `updatedAt` are not stored. Newest-first order is insertion order reversed, which assumes timestamps that increase with inserts and are distinct.
- Concurrency is not modelled: every request runs alone, so the check-then-write races between two requests are out of scope.
- `src/models/Category.ts` is not part of this model. A category is modelled as the route uses it: a required, non-empty name stored as sent, an optional description, and `isActive` defaulting to true.
- The `roles` list of a user is kept as the routes and seeders write it. `src/models/User.ts` declares no `roles` path, and under Mongoose's strict mode such a field would be dropped on create. The model does not follow that. It follows the same intended schema for `.populate('roles')` in the users listing, which could throw on an undeclared path under Mongoose's `strictPopulate` setting.
- The role create, update and permission-assignment handlers answer with the role after `populate`. The model answers with the stored record. The role delete handler answers with a message only, and the model answers with the store it leaves.
- Price and stock are `real`, and only their comparisons with 0 and the whole-number test matter. Floating-point arithmetic is not modelled.
- PermissionSeeder.Seed: a store failure inside the loop (rethrown at `src/database/permission-seeder.ts:46-49`) cannot arise in the model, because every seeded record is well formed and its name is checked first. Only I/O failures would reach that path, and they are not modelled.
- CreateAdminUser.FindOrCreate: store failures are passed on as the `Err` they are. The network failures the `catch` also rethrows are not modelled.
- The module-level call at `src/database/admin-seeder.ts:46` and the `src/scripts` entry points are process plumbing. `AdminSeeder.SeedAdminAsWritten` is the function they run.
- `createdAt` is not part of the user the create handler answers with, because timestamps are not stored.
- Orders have no handler in this model. Only their Zod schemas are modelled.
- Product update (`ProductUpdateSchema`) is modelled as a schema only. Its handler is not part of this model.

## Findings

| source | as written | input that shows it | evidently intended | confidence | as-written member | corrected member |
|---|---|---|---|---|---|---|
| src/app/api/brands/route.ts:32 | the duplicate check matches the name as sent, but `Brand` stores it trimmed, so a padded name slips past the case-insensitive check | a store holding brand `Acme`, and a request for ` acme` (leading space): it is stored as `acme` beside `Acme` | the check compares the name that will be stored, answering 409 | not executed | BrandsRoute.AsWrittenAdmitsCaseDuplicate | BrandsRoute.InsertKeepsCaseUnique |
| src/app/api/brands/route.ts:32 | a stored name sent with a leading space passes the duplicate check and is refused by the unique index | brand `Acme` stored, and a request for ` Acme`: a 500 instead of 409 | 409 "Brand with this name already exists" | not executed | BrandsRoute.AsWrittenPaddedNameIsServerError | BrandsRoute.AsWrittenPaddedNameIsServerError |
| src/database/admin-seeder.ts:37-43 | the bootstrap user document sets no `role`, so the schema default makes the bootstrap administrator a cashier | a fresh store: `admin@example.com` is stored with role `cashier`, and `withRole(['admin'])` answers 403 to its token | the user is created with `role: 'admin'` | not executed | AdminSeeder.AsWrittenAdminIsLockedOut | AdminSeeder.SeedAdminPassesAdminGate |
| src/app/api/roles/route.ts:187-195 | the conflict check compares the raw new name with the stored trimmed one, and the lookup by trimmed name finds the role itself | a role `Manager` renamed to `Manager ` (trailing space): 409 "Role with this name already exists" | 409 only when another role holds the trimmed name | not executed | RolesRoute.RenameAsWrittenSelfConflict | RolesRoute.RenameAcceptsPaddedOwnName |
| src/app/api/permissions/route.ts:182-191 | the same comparison in the permission update | a permission `users.view` renamed to `users.view `: 409 "Permission with this name already exists" | 409 only when another permission holds the trimmed name | not executed | PermissionsRoute.RenameAsWrittenSelfConflict | PermissionsRoute.RenameAcceptsPaddedOwnName |

In each finding the corrected definition is the one the handlers use. `BrandsRoute.Create` calls `Insert`, and `RolesRoute.Update` and `PermissionsRoute.Update` call `Rename`. `AdminSeeder.SeedAdmin` is the corrected bootstrap. The as-written versions are kept beside them: `InsertAsWritten`, `RenameAsWritten`, `UpdateAsWritten` and `SeedAdminAsWritten`.
