# Transparencia Fiscal API — a Dafny model of its rules

This project models the rules under the HTTP layer of the Transparencia Fiscal
API. The API is a NestJS service of the State of Morelos that publishes fiscal
documents, organised in a hierarchy of catalogs ("catálogos"). Its ORM tables
become sequences of records. ORM queries become filters, sorts and pages over
those sequences. Every foreign call becomes an input of the operation that makes
it: password hashing and comparison, token signing, random numbers, uuids, the
clock and the file system.

What is modelled, module by module:

- **Catalogs**
  - `CatalogosRepository`: the catalog table as a class, the root, child, tree
    and name queries, and the soft delete.
  - `CatalogosAdminService`: create and reparent with their `nivel` rule,
    removal guarded by active children and documents, and the preorder
    collection of catalogs that accept documents.
  - `CatalogosPublicService`: the public views of catalogs and document types.
- **Document availability** (`Availability`): for each catalog that accepts
  documents, one record per active document type. A record says whether an
  active document of that type exists, and which one is newest. The two copies
  of this builder (admin and public) are modelled once.
- **Document search**
  - `CatalogClosure`: the descendant set over active catalogs, as a least
    fixpoint.
  - `BusquedaDocumentos`: the descendant cache as a class (with the known
    imprecision of its batch lookup), the `where` filter, ordering and
    pagination.
- **Documents**
  - `DocumentosRepository`: the document table and its queries.
  - `DocumentosService`: the create and update guards, the fields an update
    copies, and the file replacement.
- **Authorisation**
  - `Accounts`: users, roles and permissions.
  - `Auth`: permission extraction, the login and refresh checks, and the
    refresh-token table.
  - `JwtStrategy`: token validation.
  - `PermissionsGuard`: the any-of permission check.
- **Users**
  - `UsersRepository`: the user table with role-link replacement, soft delete,
    restore and temporary passwords.
  - `UsersService`: the guards and field selection.
- **Account settings**
  - `ConfiguracionRepository`: the verification-code table, with at most one
    unused code per user and type; codes are single-use and expire.
  - `ConfiguracionService`: the profile update, the password-change flow and
    two-factor switching.
- **Citizen messages**
  - `ParticipacionRepository`: the message table, folio generation, status
    changes and statistics.
  - `ParticipacionService`: message creation, replies, listing and the list of
    internal recipients.
- **Dependencies**
  - `DependenciasRepository`: the full-path walk over parents, and the tree
    roots.
  - `DependenciasService`: the level and type counts.
- **News and social links**
  - `EstrategiasRepository`: the two tables, their create defaults and the
    news listing.
  - `EstrategiasService`: the not-found guards, the image upload on create and
    update, the carousel view with its month names, and the counts.
- **Files and URLs**
  - `UrlUtils`: upload URLs and their inverse.
  - `FileUpload`: upload checks, generated names, and the upload directory as
    a store of files.
  - `FileDownload`: file-name sanitising and download headers.
  - `FilePaths`: the parts of Node's `path` module that are used, and the MIME
    table.
- **Database setup**
  - `SqlServerUrl`: the SQL Server connection-string parser.
  - `DatabaseUrl`: the connection-string builder, proved to parse back.
  - `Seed`: the seed script. It upserts permissions, roles, the
    administrator and document types, and creates each link only when absent.
    It is proved idempotent up to the administrator's password hash, which
    every run salts afresh, and proved to grant each role exactly its
    permissions.
- **Support modules**: `Common`, `Strings`, `Ordering` and `Schema` hold the
  JavaScript string operations, the ORM's ordering and the shared records.

Three rules of the code that are easy to misread, modelled as written:

- The primary extension of a document type is the first trimmed token of
  `extensiones`, in its original case. Only the fallback, the type name, is
  lower-cased (src/modules/admin/catalogos/catalogos.service.ts:76-77).
- Reparenting a catalog checks that the new parent exists, not that it is
  active. It recomputes `nivel` for that row only, never for its descendants
  (src/modules/admin/catalogos/catalogos.service.ts:199-223).
- Removing a catalog that still has active children or active documents fails
  with BadRequest, not Conflict
  (src/modules/admin/catalogos/catalogos.service.ts:236-246).

## Model

| member | source | states |
|---|---|---|
| Ordering.SortByKey | src/modules/admin/catalogos/catalogos.repository.ts:60-63 | the ordered rows are a permutation of the rows |
| Ordering.SortByKeySorted | src/modules/admin/catalogos/catalogos.repository.ts:60-63 | the ordered rows are ascending in the sort key |
| Ordering.SortByKeyDescSorted | src/modules/admin/documentos/documentos.repository.ts:42-60 | the descending order is a permutation of the rows, descending in the key |
| Common.Page | src/modules/admin/documentos/documentos.repository.ts:30-36 | the page is exactly the window of the listing that starts `skip` rows in, `take` rows long or to the end, and so at most `take` rows |
| Common.PagesTile | src/modules/admin/documentos/documentos.repository.ts:30-36 | two consecutive windows put together are the window spanning both |
| Common.WholePage | src/modules/admin/documentos/documentos.repository.ts:30-36 | with no skip and no take the page is the whole listing |
| Accounts.FindUser | src/modules/admin/users/users.repository.ts:40-48 | `findUnique` by id: a row found is in the table and has that id; nothing found means no row has that id |
| Accounts.FindUserByEmail | src/modules/admin/users/users.repository.ts:156-164 | `findUnique` by e-mail: a row found has that e-mail; nothing found means no row has it |
| Accounts.RolesOf | src/modules/admin/users/users.repository.ts:50-57 | a role is in the result if and only if some link of the user names it (a link to a missing role loads nothing), at most one per link; UsersRepository.RolesOfAppend gives the link order |
| UsersRepository.LinksWithout | src/modules/admin/users/users.repository.ts:100-102 | `deleteMany` of a user's links: a link survives if and only if it belongs to another user |
| UsersRepository.RolesOfNewLinks | src/modules/admin/users/users.repository.ts:65-70 | the links created from a list of role ids load back exactly the roles with those ids, in list order |
| UsersRepository.RolesByIdExact | src/modules/admin/users/users.repository.ts:65-70 | ids that all name roles load back one role per id, in list order |
| UsersRepository.ReplacedLinksRoles | src/modules/admin/users/users.repository.ts:98-131 | after links are replaced, the user's roles are exactly those named by the new ids, and none when the list is empty |
| UsersRepository.ReplacedLinksKeepOthers | src/modules/admin/users/users.repository.ts:98-112 | replacing one user's links leaves every other user's roles as they were |
| UsersRepository.RolesOfWithoutOther | src/modules/admin/users/users.repository.ts:100-102 | deleting one user's links leaves every other user's roles as they were |
| UsersRepository.UserTable.UpdateRow | src/modules/admin/users/users.repository.ts:134-146 | `user.update` by id: an unknown id is NotFound and changes nothing; otherwise only that row is rewritten, ids stay unique and links are untouched |
| UsersRepository.UserTable.Create | src/modules/admin/users/users.repository.ts:62-90 | a role id that names no role makes the nested create fail with an internal error and write nothing; otherwise the user is appended, one link per role id is appended only when the list is non-empty, and the result carries the roles read back through the links |
| UsersRepository.UserTable.Update | src/modules/admin/users/users.repository.ts:92-132 | without role ids the links are untouched; with them the old links are deleted first, even when the user is missing or a role id names no role; an unknown user is NotFound, an unknown role an internal error, and otherwise the row is rewritten and one link per id is added |
| UsersRepository.UserTable.SoftDelete | src/modules/admin/users/users.repository.ts:134-139 | only `activo` of that user is cleared; unknown id is NotFound |
| UsersRepository.UserTable.Restore | src/modules/admin/users/users.repository.ts:141-146 | only `activo` of that user is set; unknown id is NotFound |
| UsersRepository.FindAllRoles | src/modules/admin/users/users.repository.ts:306-319 | exactly the roles matching the optional `activo` filter, sorted by name, without inventing or duplicating rows |
| UsersRepository.GenerateTemporaryPassword | src/modules/admin/users/users.repository.ts:321-332 | twelve characters, the i-th being the charset character at the i-th random draw, so every character is from the charset |
| Auth.AllCodesMembers | src/modules/admin/auth/auth.service.ts:219-223 | a code is among the collected codes if and only if some role of the user grants it |
| Auth.PermissionUnion | src/modules/admin/auth/auth.service.ts:216-226 | the permission list has no repeats and holds a code if and only if some role of the user grants it |
| Auth.ExtractPermissions | src/modules/admin/auth/auth.service.ts:216-226 | the nested loop that adds each code to a `Set` returns exactly the deduplicated union, in first-seen order |
| Auth.CheckCredentials | src/modules/admin/auth/auth.service.ts:46-57 | unknown e-mail, then inactive user, then wrong password, each Unauthorized; success if and only if the user exists, is active and the password matches, and returns that user |
| Auth.ValidateUser | src/modules/admin/auth/auth.service.ts:26-66 | the result is the check above; `ultimo_acceso` of that user alone is written, and only after all three checks pass |
| Auth.Session | src/modules/admin/auth/auth.service.ts:72-91 | expires 30 minutes after issue; the name falls back to the e-mail when empty; roles are the role names in link order, permissions the deduplicated union; the refresh token is the one given |
| Auth.NewRefreshToken | src/modules/admin/auth/auth.service.ts:189-211 | the record is active, belongs to the user, stores the token, expires 7 days after creation, stores the request IP when truthy, else the forwarded-for header when truthy, else "unknown", and the user agent when truthy, else "unknown" |
| Auth.TokenTable.Create | src/modules/admin/auth/auth.service.ts:202-211 | `refreshToken.create` appends exactly that record |
| Auth.Login | src/modules/admin/auth/auth.service.ts:68-92 | a failed check is returned and writes nothing; otherwise `ultimo_acceso` is written, one refresh-token record is appended and the session is returned |
| Auth.FindUsableToken | src/modules/admin/auth/auth.service.ts:97-102 | a record found has that token, is active and has not expired; none found means no record qualifies |
| Auth.CheckRefresh | src/modules/admin/auth/auth.service.ts:124-132 | success if and only if a usable record exists and its owner exists and is active; the user returned owns a usable record; failures are Unauthorized |
| Auth.Refresh | src/modules/admin/auth/auth.service.ts:94-159 | a failed check writes nothing; otherwise only `ultimo_acceso` is written and the session carries the same refresh token |
| JwtStrategy.Validate | src/modules/admin/auth/strategies/jwt.strategy.ts:20-71 | missing user, then inactive user, each Unauthorized; otherwise the stored user's id, e-mail and name, roles from the payload (default empty), and permissions are recomputed from the stored roles as the deduplicated union |
| JwtStrategy.GuardOnStoredRoles | src/modules/admin/auth/strategies/jwt.strategy.ts:50-57 | with a non-empty requirement, a request authenticated by the strategy is allowed if and only if one of the user's stored roles grants a required code |
| PermissionsGuard.AnyGranted | src/common/guards/permissions.guard.ts:28-30 | true if and only if some required permission is in the user's list |
| PermissionsGuard.CanActivate | src/common/guards/permissions.guard.ts:9-31 | no or empty requirement allows; otherwise a missing user or permission list denies; otherwise any-of decides |
| PermissionsGuard.GuardMonotonic | src/common/guards/permissions.guard.ts:28-30 | giving a user more permissions never turns an allow into a deny |
| PermissionsGuard.OneRequiredPermissionSuffices | src/common/guards/permissions.guard.ts:28-30 | holding one required permission is enough: the guard is any-of, not all-of |
| UsersService.WithoutPassword | src/modules/admin/users/users.service.ts:43-44 | the view keeps every column of the user but the password, and the roles given |
| UsersService.NewUser | src/modules/admin/users/users.service.ts:27-37 | the new row has the DTO's e-mail and the hash; `requiere_2fa` defaults to false; `activo` takes the column default and `foto_perfil` is not written; the creator is recorded and no modifier |
| UsersService.Create | src/modules/admin/users/users.service.ts:16-45 | a registered e-mail is Conflict and writes nothing; a role id of no role is an internal error and writes nothing; otherwise exactly the new row and its role links are added and the user is returned without password, with its roles |
| UsersService.NewUserRoles | src/modules/admin/users/users.repository.ts:65-89 | a new user's roles are exactly those its role ids name, in order |
| UsersService.UpdateCheck | src/modules/admin/users/users.service.ts:94-106 | unknown id is NotFound; a changed e-mail held by another user is Conflict; otherwise the stored user passes |
| UsersService.UserUpdateOnlyGivenFields | src/modules/admin/users/users.service.ts:109-120 | the modifier is always written; each of name, e-mail, dependency, area, phone, 2FA, `activo` and photo changes only when the DTO gives it; creator and last access never change |
| UsersService.Update | src/modules/admin/users/users.service.ts:93-132 | a failed check writes nothing; a role id of no role fails after the old links are deleted; otherwise only that user's row is rewritten with the given fields, and its links are replaced when role ids are given |
| UsersService.Remove | src/modules/admin/users/users.service.ts:134-142 | unknown id is NotFound; otherwise only `activo` is cleared |
| UsersService.Restore | src/modules/admin/users/users.service.ts:144-155 | unknown id is NotFound; otherwise only `activo` is set and the restored user is returned without password |
| UsersService.NewestUsers | src/modules/admin/users/users.service.ts:54-73 | exactly the users matching the truthy search (name or e-mail, case-insensitive) and the optional `activo`, newest first |
| UsersService.FindAllRows | src/modules/admin/users/users.service.ts:47-80 | the page is exactly the skip/take window of the matching users, newest first |
| UsersService.FindAll | src/modules/admin/users/users.service.ts:47-80 | one password-free view per row of that window, in order, with roles only when asked for |
| UsersService.CountUsers | src/modules/admin/users/users.service.ts:193-199 | the count is the number of users the `activo` filter keeps; without it every user; the active and inactive counts add up to all users |
| CatalogosRepository.FindRootCatalogs | src/modules/admin/catalogos/catalogos.repository.ts:54-75 | exactly the active rows without parent, ordered by (orden, nombre), without inventing or duplicating rows |
| CatalogosRepository.FindChildren | src/modules/admin/catalogos/catalogos.repository.ts:77-98 | exactly the active rows under that parent, ordered by (orden, nombre) |
| CatalogosRepository.SearchByName | src/modules/admin/catalogos/catalogos.repository.ts:155-177 | exactly the active rows whose name contains the term, ordered by (nivel, orden, nombre) |
| CatalogosRepository.HasDocumentsIff | src/modules/admin/catalogos/catalogos.repository.ts:193-201 | the count is positive if and only if some active document belongs to the catalog |
| CatalogosRepository.FindTreeNodes | src/modules/admin/catalogos/catalogos.repository.ts:100-135 | one node per active row of the level, in (orden, nombre) order, each carrying the tree of its own children |
| CatalogosRepository.FindTreeFalsyParent | src/modules/admin/catalogos/catalogos.repository.ts:101-103 | the falsy parent ids `undefined` and 0 both select the active roots |
| CatalogosRepository.SelfParentRecursesOnItself | src/modules/admin/catalogos/catalogos.repository.ts:124-132 | an active row that is its own parent appears again among its own children, so the recursion does not end on cyclic data |
| CatalogosRepository.CatalogTable.UpdateRow | src/modules/admin/catalogos/catalogos.repository.ts:137-142 | `catalogo.update` by id: unknown id is NotFound and changes nothing; otherwise only that row is rewritten and ids stay unique |
| CatalogosRepository.CatalogTable.Delete | src/modules/admin/catalogos/catalogos.repository.ts:144-149 | soft delete: only `activo` of that row is cleared |
| CatalogosRepository.CatalogTable.UpdateNivel | src/modules/admin/catalogos/catalogos.repository.ts:179-184 | only `nivel` of that row changes |
| CatalogosRepository.CatalogTable.UpdateOrden | src/modules/admin/catalogos/catalogos.repository.ts:186-191 | only `orden` of that row changes |
| CatalogosRepository.CatalogTable.Insert | src/modules/admin/catalogos/catalogos.repository.ts:9-13 | `create` appends exactly the new row, whose id is fresh |
| CatalogosRepository.DeleteHidesFromQueries | src/modules/admin/catalogos/catalogos.repository.ts:54-98 | after a soft delete the row no longer appears among roots or children, and every other row is kept |
| CatalogClosure.ChildrenOfActive | src/modules/public/busqueda-documentos/busqueda-documentos.service.ts:251-254 | the recursive member of the query only ever adds active catalogs |
| CatalogClosure.ChildrenOfMonotone | src/modules/public/busqueda-documentos/busqueda-documentos.service.ts:251-254 | a larger set of found ids joins to at least the same children |
| CatalogClosure.ChildrenOfUnion | src/modules/public/busqueda-documentos/busqueda-documentos.service.ts:251-254 | joining against a union of found ids is the union of the two joins |
| CatalogClosure.Closure | src/modules/public/busqueda-documentos/busqueda-documentos.service.ts:243-257 | iterating the recursive member from active start ids ends in a set that contains the start, holds only active ids and is closed under the join |
| CatalogClosure.Descendants | src/modules/public/busqueda-documentos/busqueda-documentos.service.ts:296-308 | the query result contains every active start id, only active ids, and every active child of a found id |
| CatalogClosure.ClosureLeast | src/modules/public/busqueda-documentos/busqueda-documentos.service.ts:243-257 | the iteration yields the least set closed under the join: it lies inside every closed set that contains the start |
| CatalogClosure.DescendantsLeast | src/modules/public/busqueda-documentos/busqueda-documentos.service.ts:296-308 | the query returns nothing beyond what the anchor and the recursive member force |
| CatalogClosure.DescendantsFixpoint | src/modules/public/busqueda-documentos/busqueda-documentos.service.ts:296-308 | the result is exactly the anchor rows plus the active children of result rows |
| CatalogClosure.InactiveCutsOff | src/modules/public/busqueda-documentos/busqueda-documentos.service.ts:247-254 | an inactive catalog is never returned, and its children are reached only when they are start ids themselves |
| CatalogClosure.DescendantsUnion | src/modules/public/busqueda-documentos/busqueda-documentos.service.ts:271-327 | the descendants of several start ids are the union of the descendants of each, so combining per-id results loses nothing |
| CatalogClosure.DescendantsMonotone | src/modules/public/busqueda-documentos/busqueda-documentos.service.ts:296-308 | more start ids never yield fewer descendants |
| CatalogClosure.DescendantsEmpty | src/modules/public/busqueda-documentos/busqueda-documentos.service.ts:272-274 | no start ids give no descendants |
| CatalogClosure.CteRows | src/modules/public/busqueda-documentos/busqueda-documentos.service.ts:256-260 | the ids the query lists are exactly the descendant set |
| Availability.PrimaryExtensionOfList | src/modules/admin/catalogos/catalogos.service.ts:76-77 | the extension shown is the first comma-separated entry trimmed, or the lower-cased type name when that entry is blank |
| Availability.PrimaryExtensionKeepsCase | src/modules/admin/catalogos/catalogos.service.ts:76-77 | the extension entry is not lower-cased |
| Availability.Permitting | src/modules/admin/catalogos/catalogos.service.ts:17 | exactly the catalogs that accept documents, each as often as in the input and in input order |
| Availability.ActiveTypes | src/modules/admin/catalogos/catalogos.service.ts:24-31 | exactly the active document types, each as often as in the table and in table order |
| Availability.LoadedDocs | src/modules/admin/catalogos/catalogos.service.ts:37-51 | exactly the active documents of the chosen catalogs, newest first, no row more often than in the table |
| Availability.FirstOfType | src/modules/admin/catalogos/catalogos.service.ts:56-67 | the first loaded document of that catalog and type, or none when there is none |
| Availability.FirstOfTypeIsNewest | src/modules/admin/catalogos/catalogos.service.ts:48-61 | the document kept for a catalog and type is at least as new as every other of that catalog and type |
| Availability.RecordsFor | src/modules/admin/catalogos/catalogos.service.ts:73-96 | one record per type, in the order of the types, each built from that type and the catalog's document of it |
| Availability.AvailabilityMap | src/modules/admin/catalogos/catalogos.service.ts:16-21 | an entry for exactly the catalogs that accept documents, and an empty map when there are none |
| Availability.DocIndexLookup | src/modules/admin/catalogos/catalogos.service.ts:54-67 | looking up the map built by the loop gives the first document of that catalog and type |
| Availability.BuildIndex | src/modules/admin/catalogos/catalogos.service.ts:54-67 | the loop builds the catalog-to-type-to-document map that keeps the first document of each pair |
| Availability.BuildRecords | src/modules/admin/catalogos/catalogos.service.ts:72-96 | the inner loop pushes one record per active type in order |
| Availability.RecordsForSnoc | src/modules/admin/catalogos/catalogos.service.ts:75-95 | one more type adds exactly its record at the end |
| Availability.BuildMap | src/modules/admin/catalogos/catalogos.service.ts:72-99 | the outer loop gives each accepting catalog exactly its record list |
| Availability.ObtenerDisponibilidad | src/modules/admin/catalogos/catalogos.service.ts:16-102 | the method returns the availability map of the catalogs, types and documents |
| Availability.OneRecordPerActiveType | src/modules/public/catalogos/catalogos.service.ts:66-94 | every accepting catalog gets one record per active type, with that type's name and primary extension |
| Availability.AvailableIff | src/modules/admin/catalogos/catalogos.service.ts:79-85 | a record says available if and only if an active document of that catalog and type exists |
| Availability.NewestDocumentWins | src/modules/admin/catalogos/catalogos.service.ts:89-93 | an available record carries the id and name of an active document of that catalog and type that is at least as new as every other |
| CatalogosAdminService.MapCatalogo | src/modules/admin/catalogos/catalogos.service.ts:104-115 | the catalog is copied unchanged, and an availability list is attached exactly when the catalog accepts documents and a map was supplied; it defaults to the empty list for an id missing from the map |
| CatalogosAdminService.MappedCatalogHasEveryType | src/modules/admin/catalogos/catalogos.service.ts:104-115 | a mapped catalog that accepts documents carries its own entry of the map, one record per active type |
| CatalogosAdminService.CreateNivel | src/modules/admin/catalogos/catalogos.service.ts:119-129 | without a parent the level is 0; with a parent it is the parent's level plus one; a missing parent gives NotFound |
| CatalogosAdminService.Create | src/modules/admin/catalogos/catalogos.service.ts:117-139 | a missing parent raises NotFound and leaves the table unchanged; otherwise exactly one row is appended, with the computed level and the creating user |
| CatalogosAdminService.CreateKeepsNivelConsistent | src/modules/admin/catalogos/catalogos.service.ts:119-138 | creating a row keeps every level equal to its parent's level plus one, roots at 0 |
| CatalogosAdminService.NewRowPlaced | src/modules/admin/catalogos/catalogos.service.ts:121-135 | the new row is a root at level 0 or sits one level below an existing parent |
| CatalogosAdminService.AppendKeepsNivelConsistent | src/modules/admin/catalogos/catalogos.service.ts:131-138 | appending a row placed that way keeps the levels consistent |
| CatalogosAdminService.ReparentNivel | src/modules/admin/catalogos/catalogos.service.ts:199-212 | an absent parent field keeps the level, null makes it 0, and a parent id gives that parent's level plus one or NotFound when it is missing |
| CatalogosAdminService.Update | src/modules/admin/catalogos/catalogos.service.ts:191-224 | a missing row or parent raises NotFound and leaves the table unchanged; otherwise only the target row changes, taking the given fields, the new level and the modifying user |
| CatalogosAdminService.UpdateLeavesDescendantLevels | src/modules/admin/catalogos/catalogos.service.ts:197-223 | moving a catalog under another leaves its children's levels stale: a consistent table becomes inconsistent |
| CatalogosAdminService.UpdateAcceptsSelfParent | src/modules/admin/catalogos/catalogos.service.ts:205-219 | the existence check alone lets a catalog become its own parent |
| CatalogosAdminService.RemoveCheck | src/modules/admin/catalogos/catalogos.service.ts:226-248 | removal is allowed if and only if the row exists, has no active child and no active document; a missing row gives NotFound and an active child BadRequest |
| CatalogosAdminService.Remove | src/modules/admin/catalogos/catalogos.service.ts:226-251 | a refused removal leaves the table unchanged; an accepted one deactivates that row only |
| CatalogosAdminService.RemoveKeepsActiveParents | src/modules/admin/catalogos/catalogos.service.ts:232-250 | after an accepted removal every active catalog with a parent still has an active parent |
| CatalogosAdminService.SearchByNameService | src/modules/admin/catalogos/catalogos.service.ts:253-258 | a term shorter than two characters after trimming is refused with BadRequest; otherwise the repository search for the trimmed term: exactly the active rows containing it, by (nivel, orden, nombre), no row more often than in the table |
| CatalogosAdminService.FindDocumentAvailability | src/modules/admin/catalogos/catalogos.service.ts:290-305 | NotFound exactly for a missing id; otherwise the stored catalog's id, name and flag; no records when it does not accept documents, else exactly its entry of the availability map: one record per active type, available iff an active document of the catalog has that type, naming the newest such document |
| CatalogosAdminService.SingleCatalogRecords | src/modules/admin/catalogos/catalogos.service.ts:299-304 | an accepting catalog's one-catalog map has an entry whose records follow the active types, are available iff such a document exists and name the newest one |
| CatalogosAdminService.SingleCatalogAvailability | src/modules/admin/catalogos/catalogos.service.ts:296-303 | the map for one catalog holds one record per active type when it accepts documents and is empty when it does not |
| CatalogosAdminService.PreorderMembers | src/modules/admin/catalogos/catalogos.service.ts:307-322 | the collected catalogs are exactly those that accept documents anywhere in the nested children |
| CatalogosAdminService.NodePreorderMembers | src/modules/admin/catalogos/catalogos.service.ts:310-318 | one node's walk collects exactly the accepting catalogs of its subtree |
| CatalogosAdminService.Collector.Procesar | src/modules/admin/catalogos/catalogos.service.ts:310-318 | the walk appends the subtree's accepting catalogs in preorder to the result list |
| CatalogosAdminService.ObtenerCatalogosConDocumentos | src/modules/admin/catalogos/catalogos.service.ts:307-322 | the result is the preorder list of the accepting catalogs |
| CatalogosAdminService.StripMapTree | src/modules/admin/catalogos/catalogos.service.ts:324-338 | the mapped tree keeps the shape and the catalogs of the input tree |
| CatalogosAdminService.MapTreeViewsAgree | src/modules/admin/catalogos/catalogos.service.ts:324-338 | every node of the mapped tree carries the view of its own catalog |
| CatalogosPublicService.MapCatalogoADto | src/modules/public/catalogos/catalogos.service.ts:99-120 | id, name, level, order, the documents flag and the creation date are copied, a falsy description is dropped and a truthy one kept, and availability is attached exactly when the catalog accepts documents and a map was supplied, defaulting to empty |
| CatalogosPublicService.MapAll | src/modules/public/catalogos/catalogos.service.ts:155 | one DTO per catalog, in the same order |
| CatalogosPublicService.FindActive | src/modules/public/catalogos/catalogos.service.ts:124-129 | the row with that id if it is active, none when there is no active row with that id |
| CatalogosPublicService.MapAllWithAvailability | src/modules/public/catalogos/catalogos.service.ts:152-155 | each DTO keeps its catalog's id, order and name, and a catalog that accepts documents carries exactly its entry of the availability map computed from the list |
| CatalogosPublicService.ViewShowsAvailability | src/modules/public/catalogos/catalogos.service.ts:66-94 | a mapped catalog shows one record per active type, available if and only if an active document of that catalog and type exists, then naming the newest one |
| CatalogosPublicService.MappedKeepsOrder | src/modules/public/catalogos/catalogos.service.ts:136-155 | the mapped list keeps the (orden, nombre) order and holds only input catalogs |
| CatalogosPublicService.ObtenerHijosDeCatalogo | src/modules/public/catalogos/catalogos.service.ts:122-156 | NotFound exactly when no active row has that id; otherwise the active children, ordered by (orden, nombre), each accepting child with exactly its availability records |
| CatalogosPublicService.ObtenerCatalogoPorId | src/modules/public/catalogos/catalogos.service.ts:158-177 | NotFound exactly for a missing or inactive id; availability is present exactly when the catalog accepts documents, and is then the catalog's entry of the availability map |
| CatalogosPublicService.MapSingleWithAvailability | src/modules/public/catalogos/catalogos.service.ts:158-177 | a single catalog mapped with its own availability map carries exactly its entry |
| CatalogosPublicService.ObtenerCatalogoRaiz | src/modules/public/catalogos/catalogos.service.ts:179-200 | only active roots, ordered by (orden, nombre), each accepting root with exactly its availability records |
| CatalogosPublicService.MapTipoDocumentoADto | src/modules/public/catalogos/catalogos.service.ts:215-229 | id, name, the list of extensions (verbatim) and `activo` are copied; a truthy description is kept as is and a falsy one dropped; the extension is the type's primary extension; the two timestamps are left out |
| CatalogosPublicService.TipoExtensionMatchesRecords | src/modules/public/catalogos/catalogos.service.ts:71-72 | the extension a type lists is the one its availability records show |
| CatalogosPublicService.TiposByNombre | src/modules/public/catalogos/catalogos.service.ts:203-210 | exactly the active types, ordered by name |
| CatalogosPublicService.ObtenerTiposDocumento | src/modules/public/catalogos/catalogos.service.ts:202-213 | one DTO per active type, in name order |
| CatalogosPublicService.TiposListed | src/modules/public/catalogos/catalogos.service.ts:202-213 | the listed types are the active ones in non-decreasing name order |
| BusquedaDocumentos.Uncached | src/modules/public/busqueda-documentos/busqueda-documentos.service.ts:277-286 | exactly the start ids the cache does not hold |
| BusquedaDocumentos.FromCacheMembers | src/modules/public/busqueda-documentos/busqueda-documentos.service.ts:280-283 | the ids taken from the cache are exactly the cached lists of the cached start ids |
| BusquedaDocumentos.BatchFresh | src/modules/public/busqueda-documentos/busqueda-documentos.service.ts:293-312 | the query rows for the uncached ids are exactly the descendants of those ids |
| BusquedaDocumentos.BatchResult | src/modules/public/busqueda-documentos/busqueda-documentos.service.ts:271-327 | no start ids give no ids; otherwise the result has no duplicates and holds exactly the cached lists plus the fresh descendants |
| BusquedaDocumentos.ExactCovers | src/modules/public/busqueda-documentos/busqueda-documentos.service.ts:235 | a cache whose lists are exact descendant sets also covers them |
| BusquedaDocumentos.SingleKeepsExact | src/modules/public/busqueda-documentos/busqueda-documentos.service.ts:237-269 | when every cached list is exact, a single lookup returns exactly the descendants and the cache stays exact |
| BusquedaDocumentos.SingleKeepsCovers | src/modules/public/busqueda-documentos/busqueda-documentos.service.ts:237-269 | when every cached list covers its key's descendants with active ids only, a single lookup returns all descendants and no inactive id, and the cache keeps that property |
| BusquedaDocumentos.DescendantsOfSeq | src/modules/public/busqueda-documentos/busqueda-documentos.service.ts:296-308 | an id is a descendant of a batch if and only if it is a descendant of one of its ids |
| BusquedaDocumentos.BatchExact | src/modules/public/busqueda-documentos/busqueda-documentos.service.ts:271-327 | with an exact cache the batch lookup returns exactly the descendants of the batch |
| BusquedaDocumentos.BatchKeepsCovers | src/modules/public/busqueda-documentos/busqueda-documentos.service.ts:271-327 | with a covering cache the batch lookup returns every descendant and only active ids, and the cache stays covering |
| BusquedaDocumentos.BatchResultCovers | src/modules/public/busqueda-documentos/busqueda-documentos.service.ts:280-327 | the combined ids contain every descendant of the batch and no inactive id |
| BusquedaDocumentos.BatchCacheCovers | src/modules/public/busqueda-documentos/busqueda-documentos.service.ts:314-323 | storing the whole batch result under every uncached id keeps the cache covering |
| BusquedaDocumentos.BatchCacheImprecise | src/modules/public/busqueda-documentos/busqueda-documentos.service.ts:314-323 | storing the batch result under each id loses exactness: after a batch of two roots, the first root's entry holds the second root |
| BusquedaDocumentos.DescendantCache.ObtenerDescendientesCatalogo | src/modules/public/busqueda-documentos/busqueda-documentos.service.ts:237-269 | a hit returns the cached list and leaves the cache; a miss returns the query rows and stores them under the id |
| BusquedaDocumentos.DescendantCache.SplitByCache | src/modules/public/busqueda-documentos/busqueda-documentos.service.ts:277-286 | the loop splits the start ids into the uncached ones and the concatenated cached lists |
| BusquedaDocumentos.DescendantCache.StoreAll | src/modules/public/busqueda-documentos/busqueda-documentos.service.ts:315-323 | every uncached id is mapped to the batch result and nothing else changes |
| BusquedaDocumentos.DescendantCache.ObtenerDescendientesMultiplesCatalogo | src/modules/public/busqueda-documentos/busqueda-documentos.service.ts:271-328 | the result is the batch result and the cache is the cache after the batch; an empty batch leaves the cache alone |
| BusquedaDocumentos.DescendantCache.Evict | src/modules/public/busqueda-documentos/busqueda-documentos.service.ts:264-266 | the timer removes exactly that entry |
| BusquedaDocumentos.TextFilter | src/modules/public/busqueda-documentos/busqueda-documentos.service.ts:40-45 | a text filter exists if and only if the trimmed search has at least two characters, and it is the trimmed text |
| BusquedaDocumentos.MapOrderByField | src/modules/public/busqueda-documentos/busqueda-documentos.service.ts:219-227 | a sortable column is kept; anything else becomes fecha_creacion |
| BusquedaDocumentos.SortDocs | src/modules/public/busqueda-documentos/busqueda-documentos.service.ts:94-100 | the sorted rows are a permutation of the input, ascending or descending by the chosen column |
| BusquedaDocumentos.CeilDiv | src/modules/public/busqueda-documentos/busqueda-documentos.service.ts:105 | the page count is the least number of pages that holds every row |
| BusquedaDocumentos.PaginacionOf | src/modules/public/busqueda-documentos/busqueda-documentos.service.ts:104-119 | the pagination echoes page, size and total; there is a next page if and only if rows remain, a previous page if and only if the page is above 1 |
| BusquedaDocumentos.HasNextPageIff | src/modules/public/busqueda-documentos/busqueda-documentos.service.ts:105-106 | the page is below the page count if and only if rows remain after it |
| BusquedaDocumentos.SkipOf | src/modules/public/busqueda-documentos/busqueda-documentos.service.ts:31 | the offset skips the earlier pages, so one page more ends exactly at page times page size |
| BusquedaDocumentos.Matching | src/modules/public/busqueda-documentos/busqueda-documentos.service.ts:35-88 | exactly the rows the built filter selects, each as often as in the table and in table order |
| BusquedaDocumentos.Ordered | src/modules/public/busqueda-documentos/busqueda-documentos.service.ts:91-100 | the ordered rows are a permutation of the matching rows |
| BusquedaDocumentos.WhereOf | src/modules/public/busqueda-documentos/busqueda-documentos.service.ts:35-88 | the filter carries the text filter and the catalog restriction the form asks for |
| Strings.ParseIntNoRadixOfIntString | src/modules/public/busqueda-documentos/busqueda-documentos.service.ts:62-65 | without a radix, `parseInt` still reads back every integer `toString` wrote |
| Strings.ParseIntNoRadixHex | src/modules/public/busqueda-documentos/busqueda-documentos.service.ts:62-65 | without a radix, `0x1f` reads as 31, while with radix 10 it reads as 0 |
| BusquedaDocumentos.ScopeOf | src/modules/public/busqueda-documentos/busqueda-documentos.service.ts:47-88 | a catalog restriction exists if and only if the form names categories or a catalog id |
| BusquedaDocumentos.BuildWhere | src/modules/public/busqueda-documentos/busqueda-documentos.service.ts:35-88 | the filter built step by step is the one the form describes, and the cache ends as after the lookups made |
| BusquedaDocumentos.CatalogScope | src/modules/public/busqueda-documentos/busqueda-documentos.service.ts:47-88 | the categories' lookup overrides the single catalog's, and the cache ends as after the lookups made |
| BusquedaDocumentos.BuscarDocumentos | src/modules/public/busqueda-documentos/busqueda-documentos.service.ts:15-120 | the page and the total come from the same filter, and the cache ends as after the lookups made |
| BusquedaDocumentos.PageSlice | src/modules/public/busqueda-documentos/busqueda-documentos.service.ts:94-100 | the page is the slice starting at the offset, and it holds only input rows |
| BusquedaDocumentos.SearchPage | src/modules/public/busqueda-documentos/busqueda-documentos.service.ts:94-119 | the total counts every matching row, and the page lists matching active rows at the offset in the chosen order |
| BusquedaDocumentos.OrderedIsMatching | src/modules/public/busqueda-documentos/busqueda-documentos.service.ts:94-101 | the page source and the count see the same rows, all active and matching |
| BusquedaDocumentos.ShortSearchIgnored | src/modules/public/busqueda-documentos/busqueda-documentos.service.ts:40-45 | a search of fewer than two characters after trimming does not change the filter |
| BusquedaDocumentos.ScopeIsDescendants | src/modules/public/busqueda-documentos/busqueda-documentos.service.ts:47-88 | with an exact cache the catalog restriction is exactly the descendants of the categories, or of the catalog when there are none |
| BusquedaDocumentos.ScopeCoversDescendants | src/modules/public/busqueda-documentos/busqueda-documentos.service.ts:47-88 | with a covering cache the restriction contains every such descendant, and the cache stays covering |
| BusquedaDocumentos.ObtenerDocumentoPorId | src/modules/public/busqueda-documentos/busqueda-documentos.service.ts:150-162 | a result is an active document with the parsed id; with unique ids, no result means no active document has that id |
| BusquedaDocumentos.BatchFindsSecondRoot | src/modules/public/busqueda-documentos/busqueda-documentos.service.ts:296-308 | a batch lookup of two active roots finds the second root |
| BusquedaDocumentos.BatchCachesFirstRoot | src/modules/public/busqueda-documentos/busqueda-documentos.service.ts:314-323 | the batch caches the whole combined result under the first root |
| BusquedaDocumentos.FirstRootAlone | src/modules/public/busqueda-documentos/busqueda-documentos.service.ts:243-257 | the second root is not a descendant of the first |
| DocumentosRepository.NewestFirst | src/modules/admin/documentos/documentos.repository.ts:134 | a permutation of the input in non-increasing creation date |
| DocumentosRepository.FindPublicDocuments | src/modules/admin/documentos/documentos.repository.ts:62-81 | the caller's `activo` is replaced by true; the page is exactly the skip/take window of the active rows matching the other conditions, in the requested order or table order |
| DocumentosRepository.PublicWhere | src/modules/admin/documentos/documentos.repository.ts:62-81 | the forced filter holds for a row if and only if the row is active and meets the caller's other conditions |
| DocumentosRepository.OrderRows | src/modules/admin/documentos/documentos.repository.ts:66-77 | with an order a permutation sorted by the key in the chosen direction; without one the table order |
| DocumentosRepository.PublicListing | src/modules/admin/documentos/documentos.repository.ts:62-81 | exactly the active rows meeting the other conditions, in the requested order |
| DocumentosRepository.CallerActivoOverridden | src/modules/admin/documentos/documentos.repository.ts:62-81 | asking for inactive documents gives the same result as not asking, and only active rows |
| DocumentosRepository.CatalogListing | src/modules/admin/documentos/documentos.repository.ts:42-60 | exactly the active rows of that catalog, in the requested order, newest first when no order is given, no row more often than in the table |
| DocumentosRepository.FindByCatalogoId | src/modules/admin/documentos/documentos.repository.ts:42-60 | the exact `skip`/`take` window of the catalog's listing, so only active rows of that catalog |
| DocumentosRepository.SearchConditions | src/modules/admin/documentos/documentos.repository.ts:110-128 | a document satisfies every built condition if and only if it matches the search, and the list has two entries plus one per truthy optional filter |
| DocumentosRepository.Search | src/modules/admin/documentos/documentos.repository.ts:101-139 | the page is exactly the skip/take window of the matching rows, newest first |
| DocumentosRepository.SearchListing | src/modules/admin/documentos/documentos.repository.ts:101-139 | exactly the matching rows, a permutation of them newest first |
| DocumentosRepository.SearchUnpaged | src/modules/admin/documentos/documentos.repository.ts:101-139 | an unpaged search returns the whole listing |
| DocumentosRepository.GetRecentDocuments | src/modules/admin/documentos/documentos.repository.ts:169-180 | at most the limit (10 by default) of active rows, newest first |
| DocumentosRepository.RecentDocumentsAreNewest | src/modules/admin/documentos/documentos.repository.ts:169-180 | an active document left out means the list is full and every listed row is at least as new |
| DocumentosRepository.DocumentTable.FindById | src/modules/admin/documentos/documentos.repository.ts:15-22 | the row with that id, or none when no row has it |
| DocumentosRepository.DocumentTable.UpdateRow | src/modules/admin/documentos/documentos.repository.ts:83-88 | a missing id gives NotFound and leaves the table; otherwise only that row changes, by the update |
| DocumentosRepository.DocumentTable.Delete | src/modules/admin/documentos/documentos.repository.ts:90-95 | a missing id gives NotFound; otherwise only that row's activo flag is cleared |
| DocumentosRepository.DocumentTable.Replace | src/modules/admin/documentos/documentos.repository.ts:83-88 | a missing id gives NotFound; otherwise that row alone is replaced by the new value |
| DocumentosRepository.DocumentTable.Create | src/modules/admin/documentos/documentos.repository.ts:9-13 | the new row is appended and nothing else changes |
| DocumentosRepository.DeleteHidesDocument | src/modules/admin/documentos/documentos.repository.ts:90-95 | after the soft delete the document no longer appears among its catalog's documents in any order, and every other row is kept |
| DocumentosService.CatalogCheck | src/modules/admin/documentos/documentos.service.ts:21-29 | NotFound for a missing catalog, BadRequest for one that does not accept documents, otherwise the catalog itself |
| DocumentosService.NewDocumento | src/modules/admin/documentos/documentos.service.ts:41-62 | the inserted row takes the fixed issuing institution, the given year or the current one, the uploaded path, the extension without its dot, the size as decimal digits, and a document type only when one was given |
| DocumentosService.RemoveLeadingDot | src/modules/admin/documentos/documentos.service.ts:46 | removing the first dot of a dotted extension leaves the rest, and putting it back restores it |
| DocumentosService.LowerKeepsDots | src/modules/admin/documentos/documentos.service.ts:46 | lower-casing an extension keeps its single leading dot |
| DocumentosService.StoredExtension | src/modules/admin/documentos/documentos.service.ts:46 | the stored extension is the checked one without its dot and holds no other dot |
| DocumentosService.CreateWithFile | src/modules/admin/documentos/documentos.service.ts:19-65 | a failed catalog guard or a rejected upload writes neither a row nor a file; otherwise the uploaded file is added, and then the new row, unless a truthy document type names no type: that insert fails as an internal error with no row written and the uploaded file left in place |
| DocumentosService.UpdateCheck | src/modules/admin/documentos/documentos.service.ts:108-125 | NotFound for a missing document; success if and only if the document exists and a truthy new catalog passes the catalog guard |
| DocumentosService.UpdateGuard | src/modules/admin/documentos/documentos.service.ts:108-125 | the guards plus the `connect` target: success if and only if the guards pass and a given `catalogo_id` names a catalog, NotFound otherwise; the same answer as the unchecked guards for every `catalogo_id` but 0 |
| DocumentosService.UpdateOnlyGivenFields | src/modules/admin/documentos/documentos.service.ts:127-162 | the written row changes only the fields the request gives, and always records the modifying user |
| DocumentosService.WithoutOldFile | src/modules/admin/documentos/documentos.service.ts:165-169 | deleting the old file removes its path and nothing beyond existing files |
| DocumentosService.UpdateWithFileAsWritten | src/modules/admin/documentos/documentos.service.ts:108-190 | in the code's order: a failed guard writes nothing; without a file only the row changes; a refused upload fails after the old file was deleted, leaving the row; an accepted one replaces the old file and the row; a `connect` to a missing catalog fails as an internal error at the row write, after those file steps, with the row unchanged |
| DocumentosService.UpdateWithFile | src/modules/admin/documentos/documentos.service.ts:108-190 | with the checked guards: a failed guard (a missing `connect` target included) or a refused upload writes nothing; without a file only the row changes; with one the old file is replaced by the new one and the row points at it |
| DocumentosService.ZeroCatalogReachesConnect | src/modules/admin/documentos/documentos.service.ts:114-159 | a `catalogo_id` of 0 with no catalog 0 passes the guards as written but not the `connect`; the checked guards answer NotFound |
| DocumentosService.DeleteBeforeUploadLosesFile | src/modules/admin/documentos/documentos.service.ts:164-182 | a refused file on a document with a stored file leaves the stored file deleted |
| DocumentosService.Remove | src/modules/admin/documentos/documentos.service.ts:192-199 | a missing document gives NotFound and changes nothing; otherwise only that row's activo flag is cleared |
| DocumentosService.FindOne | src/modules/admin/documentos/documentos.service.ts:76-82 | NotFound if and only if no row has the id; otherwise the row with it |
| DocumentosService.FindByCatalogo | src/modules/admin/documentos/documentos.service.ts:84-96 | NotFound if and only if the catalog is missing; otherwise the requested `skip`/`take` window of the catalog's active documents, newest first unless another order is asked for |
| DocumentosService.SearchDocuments | src/modules/admin/documentos/documentos.service.ts:201-219 | BadRequest if and only if the query is missing or shorter than two characters after trimming; otherwise exactly the skip/take window of the documents matching the trimmed query, newest first |
| ConfiguracionRepository.InvalidatePending | src/modules/admin/configuracion/configuracion.repository.ts:61-72 | every unused code of that user and type is marked used at that moment, and every other code is left as it was |
| ConfiguracionRepository.MarkUsed | src/modules/admin/configuracion/configuracion.repository.ts:97-105 | the code with that id becomes used and every other code is unchanged |
| ConfiguracionRepository.FindCode | src/modules/admin/configuracion/configuracion.repository.ts:98-99 | the code with that id, or none when no code has it |
| ConfiguracionRepository.FindValidCode | src/modules/admin/configuracion/configuracion.repository.ts:79-95 | a valid code (this user, code text and type, unused, not expired) if and only if one exists |
| ConfiguracionRepository.CreateKeepsOnePending | src/modules/admin/configuracion/configuracion.repository.ts:55-77 | after a creation the new code is the only unused one of its user and type |
| ConfiguracionRepository.CreatedCodeIsFound | src/modules/admin/configuracion/configuracion.repository.ts:55-95 | a code just created and not yet expired is the one the lookup finds |
| ConfiguracionRepository.MarkedCodeNeverValid | src/modules/admin/configuracion/configuracion.repository.ts:79-105 | once a code is marked used, no later lookup returns it |
| ConfiguracionRepository.MarkKeepsOnePending | src/modules/admin/configuracion/configuracion.repository.ts:97-105 | marking a code used keeps at most one unused code per user and type |
| ConfiguracionRepository.CodeTable.CreateVerificationCode | src/modules/admin/configuracion/configuracion.repository.ts:55-77 | the earlier unused codes of that user and type are invalidated and the new unused code is appended |
| ConfiguracionRepository.CodeTable.MarkCodeAsUsed | src/modules/admin/configuracion/configuracion.repository.ts:97-105 | a missing id gives NotFound and changes nothing; otherwise that code alone is marked used |
| ConfiguracionRepository.VerifyPassword | src/modules/admin/configuracion/configuracion.repository.ts:30-41 | false for a missing user; otherwise the comparison of the password with the stored hash |
| ConfiguracionRepository.UpdatePassword | src/modules/admin/configuracion/configuracion.repository.ts:43-53 | a missing user gives NotFound; otherwise only that user changes, to the new hash with the user as its own modifier |
| ConfiguracionRepository.PastSessions | src/modules/admin/configuracion/configuracion.repository.ts:108-115 | exactly the user's inactive refresh tokens, newest first, no token more often than in the table |
| ConfiguracionRepository.GetUserAccessLogs | src/modules/admin/configuracion/configuracion.repository.ts:107-123 | at most the limit (10 by default) of entries, taken from the user's past sessions, newest first |
| ConfiguracionService.PhotoRuleIgnoresCase | src/modules/admin/configuracion/configuracion.service.ts:61-65 | the photo rule does not depend on the case of the file name |
| ConfiguracionService.GetProfile | src/modules/admin/configuracion/configuracion.service.ts:12-38 | NotFound for a missing user and nothing written; otherwise only that user's last access is set to now, and the answer is the user as read before, showing the previous access, with exactly the roles linked to it |
| ConfiguracionService.ProfileCheck | src/modules/admin/configuracion/configuracion.service.ts:40-70 | NotFound for a missing user, Forbidden for another user's profile, BadRequest exactly for a non-empty photo without a .jpg, .jpeg or .png ending, and success otherwise |
| ConfiguracionService.ProfileOnlyGivenFields | src/modules/admin/configuracion/configuracion.service.ts:51-80 | only the given profile fields change; email, password, activity and two-factor setting are kept |
| ConfiguracionService.ToProfileView | src/modules/admin/configuracion/configuracion.service.ts:84-92 | the answer carries the updated user's id, e-mail, name, photo, area and telephone; `fecha_modificacion` is left out |
| ConfiguracionService.UpdateProfile | src/modules/admin/configuracion/configuracion.service.ts:40-93 | a refused request changes nothing; an accepted one changes that user only, by the given fields |
| ConfiguracionService.PasswordChangeCheck | src/modules/admin/configuracion/configuracion.service.ts:95-119 | NotFound for a missing user; success if and only if the current password matches, the new one differs from it and equals the confirmation |
| ConfiguracionService.GenerateVerificationCode | src/modules/admin/configuracion/configuracion.service.ts:226-229 | six decimal digits, between 100000 and 999999, reading back as 100000 plus the random draw |
| ConfiguracionService.RequestPasswordChange | src/modules/admin/configuracion/configuracion.service.ts:95-140 | a refused request stores no code; an accepted one stores a fresh six-digit code that expires five minutes later and returns it |
| ConfiguracionService.VerifyCheck | src/modules/admin/configuracion/configuracion.service.ts:142-176 | NotFound for a missing user, BadRequest when no valid code matches; success if and only if a valid code exists, the password matches and the confirmation agrees |
| ConfiguracionService.VerifyAndChangePassword | src/modules/admin/configuracion/configuracion.service.ts:142-192 | a refused request changes nothing; an accepted one marks the found code used and stores the new password hash |
| ConfiguracionService.CodeIsSingleUse | src/modules/admin/configuracion/configuracion.service.ts:153-179 | a code accepted once is never accepted again |
| ConfiguracionService.RequestedCodeVerifies | src/modules/admin/configuracion/configuracion.service.ts:121-157 | the code a request answers passes the code guard of the change for the next five minutes |
| ConfiguracionService.GetAccessLogs | src/modules/admin/configuracion/configuracion.service.ts:194-207 | NotFound if and only if the user is missing; otherwise the user's access log |
| ConfiguracionService.Toggle2FA | src/modules/admin/configuracion/configuracion.service.ts:209-224 | a missing user gives NotFound; otherwise only that user's two-factor setting changes, to the requested value |
| ParticipacionRepository.FindMensaje | src/modules/public/participacion-ciudadana/participacion-ciudadana.repository.ts:30-32 | the message with that id, or none when no message has it |
| ParticipacionRepository.FindByFolio | src/modules/public/participacion-ciudadana/participacion-ciudadana.repository.ts:30-32 | the message with that folio, or none when no message has it |
| ParticipacionRepository.FindAfterUpdate | src/modules/public/participacion-ciudadana/participacion-ciudadana.repository.ts:34-39 | after an update that keeps ids, the lookup finds the updated row, and still finds nothing for a missing id |
| ParticipacionRepository.GenerateFolio | src/modules/public/participacion-ciudadana/participacion-ciudadana.repository.ts:136-141 | the folio starts with MSG- and has fourteen characters once the clock has six digits |
| ParticipacionRepository.FolioFieldLengths | src/modules/public/participacion-ciudadana/participacion-ciudadana.repository.ts:138-139 | the random part has three characters and the clock part six |
| ParticipacionRepository.FolioSplit | src/modules/public/participacion-ciudadana/participacion-ciudadana.repository.ts:136-141 | the folio splits on '-' into MSG, the last six digits of the clock and the zero-padded random number |
| ParticipacionRepository.FolioParts | src/modules/public/participacion-ciudadana/participacion-ciudadana.repository.ts:138-140 | the folio's parts give back the clock's last six digits and a three-digit random part that reads as the draw |
| ParticipacionRepository.NewMensaje | src/modules/public/participacion-ciudadana/participacion-ciudadana.repository.ts:9-19 | the stored message has the generated folio and the caller's status, channel and client data, no answer yet, and the creation time |
| ParticipacionRepository.CountStatus | src/modules/public/participacion-ciudadana/participacion-ciudadana.repository.ts:50-59 | a count by status never exceeds the number of messages |
| ParticipacionRepository.GetEstadisticas | src/modules/public/participacion-ciudadana/participacion-ciudadana.repository.ts:49-96 | the total is the number of messages and each status count counts that status |
| ParticipacionRepository.StatusCountsBounded | src/modules/public/participacion-ciudadana/participacion-ciudadana.repository.ts:49-59 | the counts of the four statuses add up to at most the total, and exactly to it when every status is valid |
| ParticipacionRepository.EstadisticasBounded | src/modules/public/participacion-ciudadana/participacion-ciudadana.repository.ts:49-96 | the pending, answered and in-progress counts never add up to more than the total |
| ParticipacionRepository.RemoveMensajeAt | src/modules/public/participacion-ciudadana/participacion-ciudadana.repository.ts:41-43 | removing one row keeps exactly the messages with another id |
| ParticipacionRepository.MensajeTable.Create | src/modules/public/participacion-ciudadana/participacion-ciudadana.repository.ts:9-19 | a generated folio already stored fails the insert on the unique column: a 500 error and nothing written; otherwise exactly the new message is appended, the folios stay unique and the folio lookup finds it |
| ParticipacionRepository.FolioFindsItsMessage | src/modules/public/participacion-ciudadana/participacion-ciudadana.repository.ts:30-32 | with unique folios, looking up a stored message's folio finds that very message |
| ParticipacionRepository.RemoveKeepsUniqueFolios | src/modules/public/participacion-ciudadana/participacion-ciudadana.repository.ts:41-43 | deleting a message keeps the folios unique |
| ParticipacionRepository.MensajeTable.UpdateRow | src/modules/public/participacion-ciudadana/participacion-ciudadana.repository.ts:34-39 | a missing id gives NotFound and changes nothing; otherwise only that row changes, by an update that keeps id and folio, so ids and folios stay unique |
| ParticipacionRepository.MensajeTable.ResponderMensaje | src/modules/public/participacion-ciudadana/participacion-ciudadana.repository.ts:107-121 | a missing id gives NotFound; otherwise that message alone takes the answer, the area, the answered status and the answer time |
| ParticipacionRepository.MensajeTable.CambiarEstatus | src/modules/public/participacion-ciudadana/participacion-ciudadana.repository.ts:123-134 | a status outside the four valid ones raises an error and changes nothing; a missing id gives NotFound; otherwise only that message's status changes |
| ParticipacionRepository.MensajeTable.Delete | src/modules/public/participacion-ciudadana/participacion-ciudadana.repository.ts:41-43 | a missing id gives NotFound; otherwise exactly that message is removed |
| ParticipacionService.ClientIp | src/modules/public/participacion-ciudadana/participacion-ciudadana.service.ts:33 | the request address when it is truthy, otherwise the forwarded header when it is truthy, otherwise the socket address, or nothing without one |
| ParticipacionService.StoredText | src/modules/public/participacion-ciudadana/participacion-ciudadana.service.ts:36-42 | only a non-empty single string is stored |
| ParticipacionService.MensajeDataOf | src/modules/public/participacion-ciudadana/participacion-ciudadana.service.ts:20-43 | the message is pending, on the form's channel or "web", with the form's fields, and client data only when a request is present |
| ParticipacionService.StoredIpComesFromRequest | src/modules/public/participacion-ciudadana/participacion-ciudadana.service.ts:32-38 | a stored address comes from the request, and a forwarded header with several values stores none |
| ParticipacionService.FormClientFieldsIgnored | src/modules/public/participacion-ciudadana/participacion-ciudadana.service.ts:21-43 | whatever address or agent the form sends is ignored |
| ParticipacionService.Create | src/modules/public/participacion-ciudadana/participacion-ciudadana.service.ts:19-64 | a generated folio that is already stored fails the request with a 500 error and nothing written; otherwise exactly one pending message with that folio is stored, the folio lookup finds it, and the answer carries its folio and creation time |
| ParticipacionService.NewMensajePending | src/modules/public/participacion-ciudadana/participacion-ciudadana.service.ts:21-29 | a new message is pending, on the form's channel when truthy and on "web" otherwise |
| ParticipacionService.CleanRecipients | src/modules/public/participacion-ciudadana/participacion-ciudadana.service.ts:220-222 | exactly the non-empty trimmed entries, each as often as among the fields and in their order |
| ParticipacionService.InternalRecipients | src/modules/public/participacion-ciudadana/participacion-ciudadana.service.ts:218-222 | the configured list, or the default address, with no empty entry |
| ParticipacionService.RecipientsAreTrimmed | src/modules/public/participacion-ciudadana/participacion-ciudadana.service.ts:221 | every recipient is already trimmed |
| ParticipacionService.CleanRecipientsOfClean | src/modules/public/participacion-ciudadana/participacion-ciudadana.service.ts:220-222 | a list of clean entries passes through unchanged |
| ParticipacionService.RecipientsRoundTrip | src/modules/public/participacion-ciudadana/participacion-ciudadana.service.ts:218-224 | a comma-joined list of clean addresses is read back as that list and notifies the staff |
| ParticipacionService.BlankConfigNotifiesNobody | src/modules/public/participacion-ciudadana/participacion-ciudadana.service.ts:218-235 | a configuration of only blanks and commas yields no recipient and no notification |
| ParticipacionService.BlankFieldsOfBlank | src/modules/public/participacion-ciudadana/participacion-ciudadana.service.ts:220 | every piece of such a configuration is blank |
| ParticipacionService.NewestMensajes | src/modules/public/participacion-ciudadana/participacion-ciudadana.service.ts:73-97 | exactly the messages matching the status, channel and text filters, newest first |
| ParticipacionService.FindAll | src/modules/public/participacion-ciudadana/participacion-ciudadana.service.ts:66-100 | the page is exactly the skip/take window of the matching messages, newest first |
| ParticipacionService.CountMensajes | src/modules/public/participacion-ciudadana/participacion-ciudadana.service.ts:160-172 | the count is at most the number of messages, and all of them without filters |
| ParticipacionService.CountIsListLength | src/modules/public/participacion-ciudadana/participacion-ciudadana.service.ts:160-172 | the count equals the length of the unpaged list with the same filters |
| ParticipacionService.GetMensajesRecientes | src/modules/public/participacion-ciudadana/participacion-ciudadana.repository.ts:98-105 | the limit's worth (10 by default) of the newest messages, a prefix of the full newest-first list |
| ParticipacionService.FindOne | src/modules/public/participacion-ciudadana/participacion-ciudadana.service.ts:102-109 | NotFound if and only if no message has the id; otherwise that message |
| ParticipacionService.FindOneByFolio | src/modules/public/participacion-ciudadana/participacion-ciudadana.service.ts:111-118 | NotFound if and only if no message has the folio; otherwise that message |
| ParticipacionService.ResponderCheck | src/modules/public/participacion-ciudadana/participacion-ciudadana.service.ts:120-128 | NotFound for a missing message, BadRequest for one already answered, success otherwise |
| ParticipacionService.ResponderMensaje | src/modules/public/participacion-ciudadana/participacion-ciudadana.service.ts:120-139 | a refused answer changes nothing; an accepted one writes the answer to that message alone |
| ParticipacionService.AnsweredOnce | src/modules/public/participacion-ciudadana/participacion-ciudadana.service.ts:126-134 | a message answered once refuses a second answer |
| ParticipacionService.CambiarEstatus | src/modules/public/participacion-ciudadana/participacion-ciudadana.service.ts:141-149 | NotFound for a missing message, an error for an invalid status, both without change; otherwise only the status changes |
| ParticipacionService.Delete | src/modules/public/participacion-ciudadana/participacion-ciudadana.service.ts:174-181 | NotFound for a missing message; otherwise exactly that message is removed |
| DependenciasRepository.ActiveWhere | src/modules/admin/dependencias/dependencias.repository.ts:14-26 | exactly the active rows the filter accepts, sorted by the given key, without duplicating any row |
| DependenciasRepository.FindAllTipos | src/modules/admin/dependencias/dependencias.repository.ts:8-12 | a permutation of the types, sorted by name |
| DependenciasRepository.FindAllDependencias | src/modules/admin/dependencias/dependencias.repository.ts:14-27 | exactly the active units, by level, order and name, no unit more often than in the table |
| DependenciasRepository.FindByNivel | src/modules/admin/dependencias/dependencias.repository.ts:29-44 | exactly the active units of that level, by order and name, no unit more often than in the table |
| DependenciasRepository.FindByTipo | src/modules/admin/dependencias/dependencias.repository.ts:46-62 | exactly the active units of that type, by level, order and name, no unit more often than in the table |
| DependenciasRepository.FindByPadre | src/modules/admin/dependencias/dependencias.repository.ts:64-79 | exactly the active children of that unit, by order and name, no unit more often than in the table |
| DependenciasRepository.FindForUserSelection | src/modules/admin/dependencias/dependencias.repository.ts:139-159 | the active level-3 units, by order and name |
| DependenciasRepository.FindDependencia | src/modules/admin/dependencias/dependencias.repository.ts:82-83 | the unit with that id, or none when no unit has it |
| DependenciasRepository.FindDependenciaById | src/modules/admin/dependencias/dependencias.repository.ts:81-99 | none if and only if no unit has the id; otherwise that unit, active or not, with its active children in order, and its parent row (active or not) exactly when it has a parent id that some row carries |
| DependenciasRepository.SubTrees | src/modules/admin/dependencias/dependencias.repository.ts:107-126 | each child is paired with its own active children |
| DependenciasRepository.TreeRoots | src/modules/admin/dependencias/dependencias.repository.ts:101-137 | exactly the active units of level 1 or without a parent, by level, order and name, no unit more often than in the table |
| DependenciasRepository.SortedFilter | src/modules/admin/dependencias/dependencias.repository.ts:135-136 | filtering a sorted list keeps it sorted |
| DependenciasRepository.FindDependenciasTree | src/modules/admin/dependencias/dependencias.repository.ts:101-137 | one tree per root, in root order, each holding exactly the root's active children by order and name, each with exactly its own active children |
| DependenciasRepository.Trees | src/modules/admin/dependencias/dependencias.repository.ts:101-136 | one tree per root, in order, each the tree of that root |
| DependenciasRepository.TreeOf | src/modules/admin/dependencias/dependencias.repository.ts:104-127 | the tree of a unit holds exactly its active children by order and name, each with exactly its own active children |
| DependenciasRepository.DepMap | src/modules/admin/dependencias/dependencias.repository.ts:176-179 | the map has exactly the ids of the rows, each mapped to a row with that id |
| DependenciasRepository.DepMapOfUnique | src/modules/admin/dependencias/dependencias.repository.ts:176-179 | with unique ids, every row is the map's entry for its id |
| DependenciasRepository.BuildDepMap | src/modules/admin/dependencias/dependencias.repository.ts:175-179 | the loop builds the map of id to unit |
| DependenciasRepository.PathOfTopUnit | src/modules/admin/dependencias/dependencias.repository.ts:182-193 | a unit whose parent is absent or not loaded has its own name as path |
| DependenciasRepository.PathExtendsParentPath | src/modules/admin/dependencias/dependencias.repository.ts:182-193 | the path of a unit with a loaded parent is the parent's path, then " > ", then its name |
| DependenciasRepository.GetFullPath | src/modules/admin/dependencias/dependencias.repository.ts:182-193 | the loop climbing the parent links builds the full path |
| DependenciasRepository.RankedMapOf | src/modules/admin/dependencias/dependencias.repository.ts:175-186 | acyclic parent links in the table keep the loaded map's walk finite |
| DependenciasRepository.WithFullPaths | src/modules/admin/dependencias/dependencias.repository.ts:195-198 | every row, in order, is paired with its full path |
| DependenciasRepository.FindDependenciasWithFullPath | src/modules/admin/dependencias/dependencias.repository.ts:161-199 | one entry per active unit, in order, each with its full path; only the parent links among active units need to be acyclic, since inactive units are never loaded |
| DependenciasService.FindDependenciasByNivel | src/modules/admin/dependencias/dependencias.service.ts:19-24 | NotFound if and only if the level is outside 1 to 3; otherwise the repository's list of that level: exactly its active units, by order and name, none repeated beyond the table |
| DependenciasService.FindDependenciaById | src/modules/admin/dependencias/dependencias.service.ts:34-40 | NotFound if and only if no unit has the id; otherwise that unit |
| DependenciasService.ValidateDependenciaExists | src/modules/admin/dependencias/dependencias.service.ts:90-93 | true if and only if some unit has the id, that is, if and only if the lookup succeeds |
| DependenciasService.GetDependenciasByLevel | src/modules/admin/dependencias/dependencias.service.ts:72-88 | each of the three lists is the repository's list of its level: exactly its active units, by order and name, none repeated beyond the table |
| DependenciasService.GetDependenciaStructure | src/modules/admin/dependencias/dependencias.service.ts:54-70 | all the types by name, exactly the active units, and the tree query's result |
| DependenciasService.TipoIds | src/modules/admin/dependencias/dependencias.service.ts:123-124 | the type id of every row, in order |
| DependenciasService.CountTipoPositive | src/modules/admin/dependencias/dependencias.service.ts:122-129 | a type's count is positive if and only if some row has that type |
| DependenciasService.GroupByTipo | src/modules/admin/dependencias/dependencias.service.ts:121-135 | the map-building loop yields one entry per distinct type in first-seen order, with placeholder name and count |
| DependenciasService.TallyTipos | src/modules/admin/dependencias/dependencias.service.ts:122-129 | the loop records each type once in first-seen order, with the number of rows of that type |
| DependenciasService.TallyStep | src/modules/admin/dependencias/dependencias.service.ts:123-129 | one more row keeps the tally exact |
| DependenciasService.TallyKeys | src/modules/admin/dependencias/dependencias.service.ts:125-127 | the map's keys stay the recorded types |
| DependenciasService.TallyCounts | src/modules/admin/dependencias/dependencias.service.ts:125-128 | the counts stay the number of rows of each type |
| DependenciasService.DedupStep | src/modules/admin/dependencias/dependencias.service.ts:125-127 | a new type is appended to the first-seen list, a seen one is not |
| DependenciasService.CountStep | src/modules/admin/dependencias/dependencias.service.ts:128 | one more row adds one to the count of its own type only |
| DependenciasService.GetDependenciasCount | src/modules/admin/dependencias/dependencias.service.ts:109-142 | the total, the three level counts and the counts by type of the active units |
| DependenciasService.LevelCountsBounded | src/modules/admin/dependencias/dependencias.service.ts:116-119 | the level counts add up to at most the total, and exactly to it when every level is 1 to 3 |
| DependenciasService.SumCountsStep | src/modules/admin/dependencias/dependencias.service.ts:128 | one more row adds one to the sum exactly when its type is listed |
| DependenciasService.TypeCountsCoverRows | src/modules/admin/dependencias/dependencias.service.ts:122-129 | every row is counted under exactly one type |
| DependenciasService.SumTypeRows | src/modules/admin/dependencias/dependencias.service.ts:131-135 | the sum of the entries' counts is the sum of the counts of their types |
| DependenciasService.ByTypeSumsToRows | src/modules/admin/dependencias/dependencias.service.ts:121-140 | the counts by type add up to the number of units |
| DependenciasService.ByTypeEntries | src/modules/admin/dependencias/dependencias.service.ts:121-135 | each type appears once, with its own count, which is at least one |
| DependenciasService.ByTypeCoversRows | src/modules/admin/dependencias/dependencias.service.ts:121-135 | every unit's type has an entry |
| DependenciasService.CountsAgreeWithTotal | src/modules/admin/dependencias/dependencias.service.ts:109-142 | the counts by type add up to the total, and the level counts do not exceed it |
| EstrategiasRepository.FindRow | src/modules/public/estrategias-comunicacion/estrategias-comunicacion.repository.ts:61-65 | a row is found exactly when some row carries the id, and the row found carries it |
| EstrategiasRepository.FindRowAt | src/modules/public/estrategias-comunicacion/estrategias-comunicacion.repository.ts:61-65 | with unique ids, looking up any row's id finds that very row |
| EstrategiasRepository.ReplaceRowFacts | src/modules/public/estrategias-comunicacion/estrategias-comunicacion.repository.ts:67-79 | an update by id keeps the ids unique and the length, makes the id find the new row and leaves every other id's lookup unchanged |
| EstrategiasRepository.RemoveRow | src/modules/public/estrategias-comunicacion/estrategias-comunicacion.repository.ts:88-92 | a delete by id keeps exactly the rows with another id |
| EstrategiasRepository.RemoveRowUnique | src/modules/public/estrategias-comunicacion/estrategias-comunicacion.repository.ts:88-92 | after a delete the ids stay unique and the deleted id is no longer found |
| EstrategiasRepository.NewNoticia | src/modules/public/estrategias-comunicacion/estrategias-comunicacion.repository.ts:14-25 | a created news item has no link, is active unless told otherwise, and carries the given title, image and publication date |
| EstrategiasRepository.NoticiaUpdateOnlyGivenFields | src/modules/public/estrategias-comunicacion/estrategias-comunicacion.repository.ts:67-79 | an update sets exactly the fields given and keeps the others; an empty update changes nothing |
| EstrategiasRepository.NewRedSocial | src/modules/public/estrategias-comunicacion/estrategias-comunicacion.repository.ts:108-119 | a created social link is active unless told otherwise, has order 0 unless told otherwise, and keeps its description |
| EstrategiasRepository.RedSocialUpdateKeepsDescripcion | src/modules/public/estrategias-comunicacion/estrategias-comunicacion.repository.ts:148-159 | an update sets the order and the active flag only when given, and never changes the id or the description |
| Ordering.SortRows | src/modules/public/estrategias-comunicacion/estrategias-comunicacion.repository.ts:51-58 | a permutation of the rows, ordered by the chosen column in the chosen direction |
| EstrategiasRepository.FindAllNoticias | src/modules/public/estrategias-comunicacion/estrategias-comunicacion.repository.ts:27-59 | the page is exactly the skip/take window of the listing: the rows matching the active flag and the search, ordered by the chosen column, publication date descending by default |
| EstrategiasRepository.NoticiasListing | src/modules/public/estrategias-comunicacion/estrategias-comunicacion.repository.ts:27-59 | exactly the rows matching the active flag and the search, as a permutation ordered by the chosen column and direction |
| EstrategiasRepository.GetNoticiasRecientes | src/modules/public/estrategias-comunicacion/estrategias-comunicacion.repository.ts:98-104 | min(limit, number of active rows) rows, all active, newest publication date first |
| EstrategiasRepository.RecientesAreLatest | src/modules/public/estrategias-comunicacion/estrategias-comunicacion.repository.ts:98-104 | an active item left out means the list is full and every listed item was published no earlier |
| EstrategiasRepository.RecientesArePageOfListing | src/modules/public/estrategias-comunicacion/estrategias-comunicacion.repository.ts:98-104 | the latest news are the first page of the listing filtered to active rows |
| EstrategiasRepository.FindAllRedesSociales | src/modules/public/estrategias-comunicacion/estrategias-comunicacion.repository.ts:121-140 | exactly the rows matching the active filter, ordered by order ascending by default, no row more often than in the table |
| EstrategiasRepository.NoticiasCountSplit | src/modules/public/estrategias-comunicacion/estrategias-comunicacion.repository.ts:94-96 | the unfiltered count is the number of rows and splits into active plus inactive |
| EstrategiasRepository.RedesCountSplit | src/modules/public/estrategias-comunicacion/estrategias-comunicacion.repository.ts:174-176 | the unfiltered count is the number of social links and splits into active plus inactive |
| EstrategiasRepository.CountIsFilterLength | src/modules/public/estrategias-comunicacion/estrategias-comunicacion.repository.ts:94-96 | the count is the number of rows the same filter keeps |
| EstrategiasRepository.CountIsListingLength | src/modules/public/estrategias-comunicacion/estrategias-comunicacion.repository.ts:94-96 | the count equals the length of the unpaged listing under the same filter |
| EstrategiasRepository.GetEstadisticas | src/modules/public/estrategias-comunicacion/estrategias-comunicacion.repository.ts:180-196 | the totals are the table sizes and the active and inactive figures are the filtered counts |
| EstrategiasRepository.EstrategiasRepository.FindNoticia | src/modules/public/estrategias-comunicacion/estrategias-comunicacion.repository.ts:61-65 | the lookup by id on the current news table |
| EstrategiasRepository.EstrategiasRepository.FindRedSocial | src/modules/public/estrategias-comunicacion/estrategias-comunicacion.repository.ts:142-146 | the lookup by id on the current social-link table |
| EstrategiasRepository.EstrategiasRepository.CreateNoticia | src/modules/public/estrategias-comunicacion/estrategias-comunicacion.repository.ts:14-25 | appends the new news item, keeps ids unique, leaves the social links alone, and the new id finds it |
| EstrategiasRepository.EstrategiasRepository.ReplaceNoticia | src/modules/public/estrategias-comunicacion/estrategias-comunicacion.repository.ts:67-79 | a missing id is NotFound with nothing written; otherwise the row is replaced and the id finds the new row |
| EstrategiasRepository.EstrategiasRepository.UpdateNoticia | src/modules/public/estrategias-comunicacion/estrategias-comunicacion.repository.ts:67-79 | a missing id is NotFound with nothing written; otherwise the row becomes the update applied to it |
| EstrategiasRepository.EstrategiasRepository.ToggleNoticiaActivo | src/modules/public/estrategias-comunicacion/estrategias-comunicacion.repository.ts:81-86 | a missing id is NotFound; otherwise only the active flag of that row changes |
| EstrategiasRepository.EstrategiasRepository.DeleteNoticia | src/modules/public/estrategias-comunicacion/estrategias-comunicacion.repository.ts:88-92 | a missing id is NotFound; otherwise the row is removed and its id no longer found |
| EstrategiasRepository.EstrategiasRepository.CreateRedSocial | src/modules/public/estrategias-comunicacion/estrategias-comunicacion.repository.ts:108-119 | appends the new social link, keeps ids unique, leaves the news alone, and the new id finds it |
| EstrategiasRepository.EstrategiasRepository.ReplaceRedSocial | src/modules/public/estrategias-comunicacion/estrategias-comunicacion.repository.ts:148-159 | a missing id is NotFound with nothing written; otherwise the row is replaced |
| EstrategiasRepository.EstrategiasRepository.UpdateRedSocial | src/modules/public/estrategias-comunicacion/estrategias-comunicacion.repository.ts:148-159 | a missing id is NotFound; otherwise the row becomes the update applied to it |
| EstrategiasRepository.EstrategiasRepository.ToggleRedSocialActivo | src/modules/public/estrategias-comunicacion/estrategias-comunicacion.repository.ts:161-166 | a missing id is NotFound; otherwise only the active flag changes |
| EstrategiasRepository.EstrategiasRepository.DeleteRedSocial | src/modules/public/estrategias-comunicacion/estrategias-comunicacion.repository.ts:168-172 | a missing id is NotFound; otherwise the row is removed and its id no longer found |
| EstrategiasService.NoticiaUpload | src/modules/public/estrategias-comunicacion/estrategias-comunicacion.service.ts:79-85 | news images go to the noticias folder, with the five image extensions allowed and a 5 MB limit |
| EstrategiasService.FindNoticiaById | src/modules/public/estrategias-comunicacion/estrategias-comunicacion.service.ts:109-115 | NotFound exactly when no news item has the id; otherwise the item with that id |
| EstrategiasService.FindRedSocialById | src/modules/public/estrategias-comunicacion/estrategias-comunicacion.service.ts:177-183 | NotFound exactly when no social link has the id; otherwise the link with that id |
| EstrategiasService.UpdateNoticia | src/modules/public/estrategias-comunicacion/estrategias-comunicacion.service.ts:117-125 | a missing id is NotFound and writes nothing; otherwise the row is updated |
| EstrategiasService.ToggleNoticiaActivo | src/modules/public/estrategias-comunicacion/estrategias-comunicacion.service.ts:127-135 | a missing id is NotFound and writes nothing; otherwise only the active flag changes |
| EstrategiasService.DeleteNoticia | src/modules/public/estrategias-comunicacion/estrategias-comunicacion.service.ts:137-144 | a missing id is NotFound and writes nothing; otherwise the row is deleted |
| EstrategiasService.UpdateRedSocial | src/modules/public/estrategias-comunicacion/estrategias-comunicacion.service.ts:185-193 | a missing id is NotFound and writes nothing; otherwise the row is updated |
| EstrategiasService.ToggleRedSocialActivo | src/modules/public/estrategias-comunicacion/estrategias-comunicacion.service.ts:195-203 | a missing id is NotFound and writes nothing; otherwise only the active flag changes |
| EstrategiasService.DeleteRedSocial | src/modules/public/estrategias-comunicacion/estrategias-comunicacion.service.ts:205-212 | a missing id is NotFound and writes nothing; otherwise the row is deleted |
| EstrategiasService.CreateNoticiaWithImage | src/modules/public/estrategias-comunicacion/estrategias-comunicacion.service.ts:33-59 | without an image the row is created as given; with one, a rejected upload writes nothing, and an accepted one stores the file and records its relative path as the image |
| EstrategiasService.WithoutImage | src/modules/public/estrategias-comunicacion/estrategias-comunicacion.service.ts:74-77 | the stored image of the news item, if it has one, is the only file removed |
| EstrategiasService.UpdateNoticiaWithImage | src/modules/public/estrategias-comunicacion/estrategias-comunicacion.service.ts:61-95 | as written: with an image the old file is deleted before the upload is checked, so a rejected upload still loses the stored image |
| EstrategiasService.UpdateNoticiaWithImageChecked | src/modules/public/estrategias-comunicacion/estrategias-comunicacion.service.ts:61-95 | corrected: any error leaves the table and the files unchanged; an accepted image replaces the old file and the row's image path |
| EstrategiasService.RejectedImageLosesStoredImage | src/modules/public/estrategias-comunicacion/estrategias-comunicacion.service.ts:74-86 | an image with a disallowed extension is rejected, yet the stored image is already gone from the files |
| EstrategiasService.FormatDateForCarousel | src/modules/public/estrategias-comunicacion/estrategias-comunicacion.service.ts:283-293 | the Spanish month name, a space, then the year |
| EstrategiasService.IndexIn | src/modules/public/estrategias-comunicacion/estrategias-comunicacion.service.ts:284-289 | the index found holds the month name; none means the name is not a month |
| EstrategiasService.IndexInNoDup | src/modules/public/estrategias-comunicacion/estrategias-comunicacion.service.ts:284-289 | in a list without repeats every entry is found at its own index |
| EstrategiasService.MonthsAreDistinctWords | src/modules/public/estrategias-comunicacion/estrategias-comunicacion.service.ts:284-287 | the twelve month names are distinct and contain no space |
| EstrategiasService.CarouselDateRoundTrip | src/modules/public/estrategias-comunicacion/estrategias-comunicacion.service.ts:283-293 | the formatted date reads back as the same month and year |
| EstrategiasService.ToCarousel | src/modules/public/estrategias-comunicacion/estrategias-comunicacion.service.ts:242-267 | the alt text is the title, both link fields are the stored link, the image is the public file URL, and the date reads back as the publication month and year |
| EstrategiasService.CarouselUrlNeverSet | src/modules/public/estrategias-comunicacion/estrategias-comunicacion.service.ts:242-267 | since no create or update sets the link, the carousel url of any news item made through the service is empty |
| EstrategiasService.ApplyAllKeepsLink | src/modules/public/estrategias-comunicacion/estrategias-comunicacion.repository.ts:67-79 | no sequence of updates changes the link |
| EstrategiasService.GetNoticiasCarousel | src/modules/public/estrategias-comunicacion/estrategias-comunicacion.service.ts:151-154 | one carousel entry per latest active news item, in the same order, min(limit, number of active items) of them |
| EstrategiasService.CountNoticiasService | src/modules/public/estrategias-comunicacion/estrategias-comunicacion.service.ts:156-159 | no filter counts every row; a filter counts the matching rows, which with the opposite count make up the whole table |
| EstrategiasService.CountRedesSocialesService | src/modules/public/estrategias-comunicacion/estrategias-comunicacion.service.ts:214-217 | no filter counts every link; a filter's count and the opposite one make up the whole table |
| UrlUtils.ApiBaseUrl | src/common/services/url-utils.service.ts:13-16 | the configured base URL when set, otherwise a localhost URL |
| UrlUtils.DropTrailingSlash | src/common/services/url-utils.service.ts:31 | exactly one trailing '/' is removed, and only when present |
| UrlUtils.DropLeadingSlash | src/common/services/url-utils.service.ts:32 | exactly one leading '/' is removed, and only when present |
| UrlUtils.GetFileUrl | src/common/services/url-utils.service.ts:23-52 | nothing exactly for a missing or blank path; an http(s) URL unchanged; otherwise the base without trailing '/', then /uploads/, then the path without leading '/' |
| UrlUtils.ExtractRelativePath | src/common/services/url-utils.service.ts:59-70 | strips the uploads prefix of the configured base when the URL starts with it, and returns the URL unchanged otherwise |
| UrlUtils.LocalIffExtracted | src/common/services/url-utils.service.ts:59-82 | a URL is a local upload URL exactly when extracting its relative path changes it |
| UrlUtils.FileUrlRoundTrip | src/common/services/url-utils.service.ts:23-82 | for a base without trailing '/', extracting the relative path of a file URL gives back the path, and the URL is local |
| UrlUtils.TrailingSlashBreaksRoundTrip | src/common/services/url-utils.service.ts:31-82 | as written: with a base ending in '/', the file URL is not recognised as local and extraction returns it unchanged |
| UrlUtils.ExtractUploadPath | src/common/services/url-utils.service.ts:59-70 | corrected: the prefix is built from the base without its trailing '/', as the file URL is |
| UrlUtils.UploadPathRoundTrip | src/common/services/url-utils.service.ts:23-70 | with the corrected extraction, the round trip returns the path for every base |
| FileUpload.CheckUpload | src/common/services/file-upload.service.ts:97-117 | a missing file, then an oversize file, then a disallowed lower-cased extension are rejected with BadRequest; otherwise the lower-cased extension |
| FileUpload.KeepNameChars | src/common/services/file-upload.service.ts:230 | only word characters, white space and '-' remain |
| FileUpload.DashSpaces | src/common/services/file-upload.service.ts:231 | no white space remains |
| FileUpload.CleanBaseName | src/common/services/file-upload.service.ts:229-232 | the cleaned base holds only lower-case word characters and '-' |
| FileUpload.GenerateFileName | src/common/services/file-upload.service.ts:220-235 | the custom name if truthy else the stem, cleaned, then the time stamp, the first eight uuid characters and the original extension |
| FileUpload.CleanIsPlain | src/common/services/file-upload.service.ts:229-232 | the cleaned base holds no '.' and no '/' |
| FileUpload.GeneratedNameKeepsExtension | src/common/services/file-upload.service.ts:220-235 | the generated name has the original extension and hence the same MIME type |
| FileUpload.RelativePath | src/common/services/file-upload.service.ts:128 | the relative path holds no backslash |
| FileUpload.FileStore.UploadFile | src/common/services/file-upload.service.ts:94-146 | a rejected upload writes nothing and reports the check's error; an accepted one stores the file's size under its absolute path |
| FileUpload.FileStore.DeleteFile | src/common/services/file-upload.service.ts:153-166 | true exactly when the resolved file existed; afterwards it is gone |
| FileUpload.FileStore.FileExists | src/common/services/file-upload.service.ts:173-180 | true exactly when the resolved path is stored |
| FileUpload.AcceptedUploadKeepsExtension | src/common/services/file-upload.service.ts:94-146 | an accepted upload's stored name has the checked extension, which is in the allowed list, and its relative path has no backslash |
| FileUpload.ExtnameOfDottedName | src/common/services/file-upload.service.ts:110 | a name without '/' whose last '.' follows at least one character has that '.' and the rest as its extension (so `x.exe` has `.exe`) |
| FilePaths.Basename | src/common/services/file-upload.service.ts:197 | the basename has no '/' and ends the path |
| FilePaths.Extname | src/common/services/file-upload.service.ts:110 | empty, or a '.' followed by text with no '.' or '/', ending the path |
| FilePaths.Stem | src/common/services/file-upload.service.ts:221-222 | the basename is the stem followed by the extension |
| FilePaths.ResolveFilePath | src/common/services/file-upload.service.ts:242-255 | an absolute path is kept as is, and the result always ends with the given path |
| FilePaths.MimeType | src/common/services/file-upload.service.ts:279-307 | the table entry for the lower-cased extension, else application/octet-stream |
| FilePaths.MimeTypeIgnoresCase | src/common/services/file-download.service.ts:165-193 | a file name's case never changes its MIME type |
| FilePaths.ExtnameOfStemAndExtension | src/common/services/file-upload.service.ts:234 | a plain stem followed by an extension has that extension |
| FileDownload.SanitizeFileName | src/common/services/file-download.service.ts:200-203 | as written: same length; word characters, white space, '.' and '-' kept, all else '_'; never a quote or backslash |
| FileDownload.SanitizeKeepsLineBreaks | src/common/services/file-download.service.ts:70-77 | as written: a name with CR LF keeps them, so the disposition value is not a valid header value; the corrected sanitiser turns them into '_' |
| FileDownload.SanitizeHeaderFileName | src/common/services/file-download.service.ts:200-203 | corrected: same length; only word characters, space, '.' and '-' kept |
| FileDownload.SanitizeHeaderFileNameQuotable | src/common/services/file-download.service.ts:200-203 | the corrected result fits a quoted file name and sanitising is idempotent |
| FileDownload.SanitizersAgree | src/common/services/file-download.service.ts:200-203 | on names whose only white space is the space, both sanitisers agree |
| FileDownload.Disposition | src/common/services/file-download.service.ts:200-203 | corrected: starts with attachment exactly when asked to, quotes the corrected sanitised name, and is always a valid header value |
| FileDownload.DownloadHeaderChoices | src/common/services/file-download.service.ts:49-81 | as written: the five headers go through if and only if the content type, the disposition and the date are valid header values, and then exactly the five keys are set |
| FileDownload.HeadersSetAll | src/common/services/file-download.service.ts:70-81 | the header steps all go through if and only if every value is valid, and then every header is set in order |
| FileDownload.HeadersSetStops | src/common/services/file-download.service.ts:70-81 | at the first invalid value the headers set so far stay and the rest are not set |
| FileDownload.SendStepsGoThrough | src/common/services/file-download.service.ts:70-81 | the five steps go through if and only if the content type, the disposition and the date are valid |
| FileDownload.SetAllKeys | src/common/services/file-download.service.ts:70-81 | after all five steps exactly the five header names are set |
| FileDownload.LineBreakNameStopsAfterTwoHeaders | src/common/services/file-download.service.ts:70-77 | as written: a download name with CR LF leaves only Content-Type and Content-Length set and fails |
| FileDownload.CheckedDispositionNeverStops | src/common/services/file-download.service.ts:73-77 | corrected: the disposition never stops the header steps |
| FileDownload.DefaultDownloadName | src/common/services/file-download.service.ts:64 | without a download name, the basename of the resolved path is used |
| FileDownload.Response.SetHeader | src/common/services/file-download.service.ts:70-81 | sets the one header and leaves the body alone |
| FileDownload.Response.Send | src/common/services/file-download.service.ts:70-81 | the five `setHeader` calls in order: the headers and the outcome are those of the header steps, and the file is streamed only when all went through |
| FileDownload.DownloadFile | src/common/services/file-download.service.ts:49-98 | as written: a missing file is NotFound with nothing set; otherwise the headers are those set before the first invalid value; an invalid one ends in an internal error with nothing streamed, else the file is streamed |
| FileDownload.DownloadFileChecked | src/common/services/file-download.service.ts:49-98 | corrected: as the download, but the disposition never fails, so only an invalid content type or date can |
| FileDownload.FileExists | src/common/services/file-download.service.ts:125-132 | true exactly when the resolved path is a stored file |
| FileDownload.GetFileInfo | src/common/services/file-download.service.ts:139-158 | nothing exactly for a missing file; otherwise its size, its modification time and its lower-cased extension |
| SqlServerUrl.StripProtocol | src/prisma/prisma.service.ts:17 | one leading sqlserver:// is removed when present, and the text is untouched otherwise |
| SqlServerUrl.PortOf | src/prisma/prisma.service.ts:39 | the parsed port when it is a non-zero number; 1433 when the text does not parse or parses to zero |
| SqlServerUrl.ParamsOf | src/prisma/prisma.service.ts:29-35 | only non-empty values are stored, under lower-cased keys, with later segments winning |
| SqlServerUrl.ParseSqlServerUrl | src/prisma/prisma.service.ts:15-46 | the parsed configuration is the one the segment-wise definition gives, with a non-zero port |
| SqlServerUrl.ReadParams | src/prisma/prisma.service.ts:29-35 | the loop over the segments after the first builds exactly the parameter table |
| SqlServerUrl.ProtocolStripped | src/prisma/prisma.service.ts:17-20 | with the protocol in front, the rest is parsed as it stands |
| SqlServerUrl.BareHostDefaults | src/prisma/prisma.service.ts:23-45 | a bare host gets port 1433, an empty database, no credentials, encryption on and the certificate checked |
| SqlServerUrl.DefaultPortText | src/prisma/prisma.service.ts:26-39 | the fallback port text reads as 1433 |
| SqlServerUrl.ParamOfPair | src/prisma/prisma.service.ts:31 | key=value splits into that key and that value |
| SqlServerUrl.ParamOfTriple | src/prisma/prisma.service.ts:31 | with a second '=', only the text between the first and second '=' is the value |
| SqlServerUrl.KeysLowered | src/prisma/prisma.service.ts:33-44 | the keys looked up are their own lower-case forms |
| SqlServerUrl.EqualsInValueIsCut | src/prisma/prisma.service.ts:31-33 | a password containing '=' is cut at it |
| SqlServerUrl.OneSegmentCut | src/prisma/prisma.service.ts:29-35 | a lone segment with a second '=' stores the text before it under the lower-cased key |
| SqlServerUrl.SplitAppendPiece | src/prisma/prisma.service.ts:20 | splitting text with one more piece appended gives one more piece |
| SqlServerUrl.AppendedParamWins | src/prisma/prisma.service.ts:29-35 | a key=value appended at the end overrides any earlier value of the same key, in any case |
| SqlServerUrl.AppendedSegment | src/prisma/prisma.service.ts:30-35 | one more segment sets the lower-cased key, or is skipped when its value is empty |
| SqlServerUrl.TrailingEncryptFalse | src/prisma/prisma.service.ts:43 | a trailing encrypt=false, in any key case, switches encryption off |
| SqlServerUrl.TrailingTrustTrue | src/prisma/prisma.service.ts:44 | a trailing trustServerCertificate=true trusts the certificate |
| SqlServerUrl.TrailingParamFound | src/prisma/prisma.service.ts:29-35 | a trailing parameter's value is what its lower-cased key looks up |
| DatabaseUrl.Resolve | prisma.config.ts:23-29 | every setting except the password falls back to a non-empty default |
| DatabaseUrl.BuildDatabaseUrl | prisma.config.ts:16-32 | the whole DATABASE_URL when set, otherwise a sqlserver:// URL built from the settings |
| DatabaseUrl.ParseDigits | src/prisma/prisma.service.ts:39 | parseInt reads a digit string as its value |
| DatabaseUrl.LookupUpd | src/prisma/prisma.service.ts:32-33 | one table step stores a non-empty value under its key and leaves other keys alone |
| DatabaseUrl.SettingsParams | prisma.config.ts:31 | the parameter segments of the built URL parse to the settings table |
| DatabaseUrl.ThreeSegments | src/prisma/prisma.service.ts:29-35 | three key=value segments parse to the three table steps in order |
| DatabaseUrl.TwoMoreSegments | src/prisma/prisma.service.ts:29-35 | two more segments are two more table steps |
| DatabaseUrl.SegmentStep | src/prisma/prisma.service.ts:29-35 | one more segment is one more table step |
| DatabaseUrl.SettingsLookups | prisma.config.ts:31 | each option is found under its own key, and only when it is non-empty |
| DatabaseUrl.DigitsPort | src/prisma/prisma.service.ts:39 | a positive digit string is read as that port |
| DatabaseUrl.AssembleSettings | src/prisma/prisma.service.ts:37-45 | the built host, port and options assemble to the configuration they stand for |
| DatabaseUrl.ParseSettings | prisma.config.ts:31 | the built segments parse to the configuration the settings stand for |
| DatabaseUrl.BuiltUrlParsesBack | prisma.config.ts:16-32 | a built URL whose settings carry no separators parses back to exactly those settings |
| DatabaseUrl.DefaultsParseBack | prisma.config.ts:23-31 | with nothing set, the URL parses to localhost:1433, DB_Transparencia_Fiscal, user sa, no password, no encryption, certificate trusted |
| Seed.PermisoByCodigo | prisma/seed.ts:108 | a permission is found exactly when some row has the code, and the row found has it |
| Seed.RolByNombre | prisma/seed.ts:97-98 | a role is found exactly when some row has the name |
| Seed.TipoByNombre | prisma/seed.ts:267-268 | a document type is found exactly when some row has the name |
| Seed.SetPermiso | prisma/seed.ts:84-88 | the update half of the permission upsert rewrites the row with the code and keeps the others and the length |
| Seed.SetRol | prisma/seed.ts:97-104 | the update half of the role upsert rewrites the description of the named role only |
| Seed.SetAdmin | prisma/seed.ts:201-207 | the update half of the user upsert rewrites name, password and active flag of the admin email only |
| Seed.SetTipo | prisma/seed.ts:266-274 | the update half of the type upsert rewrites the named type only |
| Seed.SeedDatabase.UpsertPermiso | prisma/seed.ts:84-88 | the state becomes the permission upsert of the old state |
| Seed.SeedDatabase.CreatePermisos | prisma/seed.ts:83-89 | the permission loop upserts each listed permission in order |
| Seed.SeedDatabase.UpsertRol | prisma/seed.ts:97-104 | the state and the returned id are the role upsert of the old state |
| Seed.SeedDatabase.AssignPermisos | prisma/seed.ts:107-127 | the grant loop adds a link for each code whose permission exists and that is not yet linked |
| Seed.SeedDatabase.SeedRole | prisma/seed.ts:97-127 | a role upsert followed by its grant loop |
| Seed.SeedDatabase.UpsertAdmin | prisma/seed.ts:200-215 | the state and the returned id are the admin user upsert |
| Seed.SeedDatabase.LinkRole | prisma/seed.ts:219-233 | the user-role link is created only when absent |
| Seed.SeedDatabase.UpsertTipo | prisma/seed.ts:266-274 | the state becomes the type upsert of the old state, a created type recording the administrator as its creator |
| Seed.SeedDatabase.CreateTipos | prisma/seed.ts:266-275 | the type loop upserts each listed type in order, with the given creator |
| Seed.TiposCreatedBy | prisma/seed.ts:266-275 | the type loop never changes an existing type's creator and records the given creator on every type it creates |
| Seed.SeedDatabase.RunSeed | prisma/seed.ts:66-283 | a run turns the state into the seeded state |
| Seed.GrantsFrame | prisma/seed.ts:107-127 | a grant loop writes only the link table and only appends to it |
| Seed.GrantsCover | prisma/seed.ts:107-127 | every code of the loop whose permission exists ends up linked to the role |
| Seed.GrantsOnlyCodes | prisma/seed.ts:107-127 | every link added names the role and the permission of one of the loop's codes |
| Seed.RolUpserted | prisma/seed.ts:97-104 | after a role upsert the named role has the given description, and nothing but the role table changed |
| Seed.RolOtherKept | prisma/seed.ts:97-104 | a role upsert leaves the lookup of every other name as it was |
| Seed.AdminUpserted | prisma/seed.ts:201-215 | after the user upsert the admin account is in place, and only the user table changed |
| Seed.PermisosFixpoint | prisma/seed.ts:83-89 | where the permissions are in place, the permission loop writes nothing |
| Seed.GrantsFixpoint | prisma/seed.ts:107-127 | where the links are in place, the grant loop writes nothing |
| Seed.RoleFixpoint | prisma/seed.ts:97-127 | where a role and its links are in place, its step writes nothing and returns its id |
| Seed.AdminFixpoint | prisma/seed.ts:201-215 | where the admin account is in place, its upsert writes nothing |
| Seed.TiposFixpoint | prisma/seed.ts:266-275 | where the types are in place, the type loop writes nothing |
| Seed.PermisosEstablished | prisma/seed.ts:83-89 | with distinct codes, after the loop every listed permission is in place |
| Seed.TiposEstablished | prisma/seed.ts:266-275 | with distinct names, after the loop every listed type is in place |
| Seed.PermisoCodesDistinct | prisma/seed.ts:72-81 | the eight permission codes are distinct |
| Seed.TipoNamesDistinct | prisma/seed.ts:243-264 | the four type names are distinct |
| Seed.RolesEstablished | prisma/seed.ts:97-193 | after the three role steps all three roles and their links are in place, and ADMIN has the returned id |
| Seed.SeededDone | prisma/seed.ts:66-283 | one run leaves everything it writes in place |
| Seed.SeedFixpoint | prisma/seed.ts:66-283 | a run with the same hash over a database where everything is in place writes nothing |
| Seed.SeedRerun | prisma/seed.ts:199-206 | over a database where everything is in place, a run with a new hash changes only the administrator's password |
| Seed.SeedIdempotent | prisma/seed.ts:66-283 | a second run leaves the database of the first run except that the administrator's password becomes the second run's hash; with the same hash, nothing changes |
| Seed.PermisoSound | prisma/seed.ts:84-88 | a permission upsert keeps ids and codes unique |
| Seed.RolSound | prisma/seed.ts:97-104 | a role upsert keeps ids and names unique and returns an issued id |
| Seed.GrantsSoundAll | prisma/seed.ts:107-127 | a grant loop adds no duplicate link |
| Seed.SeededSound | prisma/seed.ts:66-283 | a run keeps one row per unique key in every table and no duplicate link |
| Seed.AdminGetsEveryCode | prisma/seed.ts:107-127 | after a run ADMIN is linked to all eight codes |
| Seed.FreshRoleExact | prisma/seed.ts:107-127 | a role created fresh is linked to exactly the codes of its list |
| Seed.GrantedKept | prisma/seed.ts:140-193 | another role's step leaves a role's codes as they were |
| Seed.CargaCodes | prisma/seed.ts:139 | CARGA's codes are DOCUMENTO_CARGAR and REPORTE_VER, both among the eight |
| Seed.EdicionCodes | prisma/seed.ts:172 | EDICION's codes are DOCUMENTO_CARGAR, DOCUMENTO_EDITAR and REPORTE_VER, all among the eight |
| Seed.FreshAdminExact | prisma/seed.ts:97-127 | on a sound database without ADMIN, a run links ADMIN to exactly the eight codes |
| Seed.FreshCargaExact | prisma/seed.ts:130-160 | on a sound database without CARGA, a run links CARGA to exactly DOCUMENTO_CARGAR and REPORTE_VER |
| Seed.FreshEdicionExact | prisma/seed.ts:163-193 | on a sound database without EDICION, a run links EDICION to exactly its three codes |
| Seed.AdminLinkedOnce | prisma/seed.ts:219-233 | after a run the admin account is linked to ADMIN by exactly one link |

## Left out

- The HTTP layer is not part of this model: controllers, modules, interceptors, exception filters and DTO validation decorators.
- Foreign calls become inputs. Password hashing and comparison (bcrypt) are a `compare` function or a given hash. JWT signing gives a given token string. `Date.now`/`new Date()` give a given `now` or timestamp. `Math.random`, `crypto.randomBytes` and uuid give given draws or strings.
- `logout` (src/modules/admin/auth/auth.service.ts:161-168) is not modelled. It matches the stored token through salted bcrypt hashes, which an input function cannot capture faithfully.
- Mail sending, console output and locale date formatting are left out. A failed mail never changes a result, and the model reflects that.
- The ORM and the database are modelled as in-memory tables, and several things about them are left out:
  - Identity columns are counters in the table state.
  - Raw SQL text (the recursive descendant query) is replaced by the closure it computes.
  - `groupBy` statistics, distinct-value queries and per-catalog document statistics are ORM aggregations with no further rule, so they are not modelled.
- Concurrency is left out. `Promise.all` interleavings and the timer that evicts cache entries are not modelled. Eviction is the explicit `BusquedaDocumentos.DescendantCache.Evict`.
- The file system is a map from path to size. File contents, directory creation, write or unlink failures (InternalServerError) and stream errors during a download are not modelled.
- `formatBytes` (src/common/services/file-upload.service.ts:314-322) is not modelled: it uses floating point, and it only shapes an error message.
- FilePaths.ResolveFilePath and FilePaths.JoinPath: join `./` and `../` paths without the normalisation `path.resolve` and `path.join` perform, so `./uploads/x` stays `./uploads/x` where Node gives `uploads/x`. Every path the model stores and looks up goes through the same join, so the store's keys agree with each other, but they are not Node's spelling of those paths.
- FilePaths.Basename and FilePaths.Extname: take everything after the last '/'. Node's posix `basename` and `extname` first drop trailing '/' characters, so `a/b.pdf/` gives `b.pdf` and `.pdf` there and an empty name and no extension here. No path the services build or store ends in '/'.
- CatalogosRepository.FindTree: takes a `fuel` depth bound because `findTree`'s recursion ends only on acyclic parent data. A node reached with no fuel left is returned without children, so trees deeper than the fuel are cut.
- DependenciasRepository.GetFullPath: requires the parent links among the loaded (active) units to descend a ghost rank. `getFullPath` has no cycle guard and does not terminate on a cycle among active units, a case the model excludes; cycles through inactive units are allowed, since those units are never loaded.
- EstrategiasService.FormatDateForCarousel: a date is modelled with its month index and year already extracted. The time zone `getMonth`/`getFullYear` use is not modelled.
- ConfiguracionService.GenerateVerificationCode: takes the random draw as an integer below 900000 in place of `Math.floor(Math.random() * 900000)`.
- ParticipacionRepository.GenerateFolio: takes the timestamp and the random number below 1000 as inputs.
- UsersRepository.GenerateTemporaryPassword: takes the twelve random indices into the character set as inputs.
- Connection-string and configuration files that repeat `buildDatabaseUrl` (src/config/env.validation.ts, src/config/database.config.ts) are not part of this model. `Seed` uses the same parser as `SqlServerUrl`, so it is not modelled twice.
- Strings.ToLower: lowers only the ASCII letters A-Z. JavaScript's `toLowerCase` also lowers other letters (`É` to `é`), so names with non-ASCII capitals are compared differently.
- DocumentosRepository.SearchMatches, BusquedaDocumentos.Matches, CatalogosRepository.SearchByName and CatalogosAdminService.SearchByNameService: `contains` is compared case-sensitively. SQL Server's default collation is case-insensitive, so the database also returns rows that differ from the term only in letter case.
- Ordering.StrLe: orders names by character code. The database orders names by its collation (case-insensitive and language-aware), so name orderings agree only where the two orders agree, such as names in one letter case without accents.
- UsersService.UserMatches, EstrategiasRepository.SearchMatches and ParticipacionService.MensajeMatches: the searches pass `mode: 'insensitive'`, which the ORM's SQL Server connector does not accept. With a search term, those queries are rejected at run time. The model gives the intended ASCII case-insensitive match instead of that error.
- CatalogClosure.CteRows: SQL Server stops a recursive common table expression after 100 levels by default. On cyclic parent data, or on chains deeper than 100 levels, the descendant query fails. The closure here is finite on every input and never fails.
- ConfiguracionService.GetProfile: the answer leaves out `fecha_modificacion`, a column the user row of this model does not carry.
- BusquedaDocumentos.WhereOf and BusquedaDocumentos.ObtenerDocumentoPorId: an `extension` that `parseInt` turns into NaN becomes a type condition that matches no document, and an id that `parseInt` turns into NaN finds no document (None). The source passes the NaN on to the ORM. What the ORM does with a NaN filter value (reject the query or match nothing) is not modelled.
- Accounts.FindUserByEmail, Auth.CheckCredentials, Auth.Login, UsersService.Create, UsersService.UpdateCheck and BusquedaDocumentos.Matches (the `periodicidad` equality): these compare text exactly. Under SQL Server's default case-insensitive collation, the database's equality also matches an e-mail or a periodicity that differs only in letter case. So the model finds no user, and does not report a duplicate e-mail, where the database would.
- Auth.NewRefreshToken: the expiry is the creation time plus 7 × 24 hours in milliseconds. The source's `setDate(getDate() + 7)` adds 7 local calendar days, which is one hour more or less when a daylight-saving change falls in that week.
- CatalogosPublicService.MapTipoDocumentoADto: the answer leaves out `fechaCreacion` and `fechaModificacion`, which the source also copies. The model's document-type row does not carry these database-stamped times.
- ConfiguracionService.ToProfileView: the answer leaves out `fecha_modificacion`, which the source also returns. The model's user row does not carry it.
- EstrategiasRepository.Noticia and EstrategiasRepository.RedSocial: the rows leave out `fecha_actualizacion` (both) and the social link's `fecha_creacion`, which the service's mappers return. These are times the database stamps; no operation of the model reads them.
- CatalogosPublicService.MapCatalogoADto: the answer leaves out `icono`, `descripcionNivel` and `fechaModificacion`, which the source also copies. The model's catalog row does not carry them.
- ParticipacionRepository.MensajeTable.Create and ParticipacionService.Create: a folio is generated from the clock and a random number and can repeat. The model answers the unique constraint's failure with the same 500 the global filter gives; the database's own error text is not modelled.
- DocumentosRepository.OrderRows: without an `orderBy`, the database returns rows in an unspecified order. The model uses table order.

## Findings

| source | as written | input that shows it | evidently intended | confidence | as-written member | corrected member |
|---|---|---|---|---|---|---|
| src/modules/admin/documentos/documentos.service.ts:164-182 | the stored file is deleted before the new upload is checked | a document with a stored file, updated with a file named `x.exe`: the stored file is gone, the update fails, and the row still names the deleted file (`DocumentosService.DeleteBeforeUploadLosesFile`) | check the upload first, then delete the old file; a rejected upload changes nothing | medium, not executed | DocumentosService.UpdateWithFileAsWritten | DocumentosService.UpdateWithFile |
| src/modules/admin/documentos/documentos.service.ts:114-159 | the catalog guard runs only for a truthy `catalogo_id`, but the `connect` is written for any given one | a document with a stored file, updated with `catalogo_id` 0 and an accepted file while no catalog 0 exists: the old file is deleted, the new one stored, and the update fails as an internal error with the row naming the deleted file (`DocumentosService.ZeroCatalogReachesConnect`) | check every given `catalogo_id` before any file step; such a request is NotFound and changes nothing | low, not executed | DocumentosService.UpdateWithFileAsWritten | DocumentosService.UpdateWithFile |
| src/modules/public/estrategias-comunicacion/estrategias-comunicacion.service.ts:74-86 | the stored image is deleted before the new upload is checked | a news item with a stored image, updated with an image named `x.exe`: the stored image is gone, and the row still names it (`EstrategiasService.RejectedImageLosesStoredImage`) | check the upload first; a rejected image changes nothing | medium, not executed | EstrategiasService.UpdateNoticiaWithImage | EstrategiasService.UpdateNoticiaWithImageChecked |
| src/common/services/file-download.service.ts:200-203 | `\s` keeps CR and LF in the file name put into `Content-Disposition`, so `setHeader` throws after `Content-Type` and `Content-Length` were set | download name `a\r\nb.pdf`: only the first two headers are set and the download fails (`FileDownload.LineBreakNameStopsAfterTwoHeaders`, `FileDownload.SanitizeKeepsLineBreaks`) | replace every character but word characters, space, '.' and '-', so the quoted name is always a valid header value (`FileDownload.CheckedDispositionNeverStops`) | high, not executed | FileDownload.DownloadFile | FileDownload.DownloadFileChecked |
| src/common/services/url-utils.service.ts:59-70 | the prefix removed is built from the base URL as configured, while `getFileUrl` drops its trailing '/' | base `http://h/` and path `a.pdf`: the file URL `http://h/uploads/a.pdf` is not recognised as local, and extraction returns it unchanged (`UrlUtils.TrailingSlashBreaksRoundTrip`) | build the prefix from the base without its trailing '/', so extraction inverts `getFileUrl` for every base | medium, not executed | UrlUtils.ExtractRelativePath | UrlUtils.ExtractUploadPath |
