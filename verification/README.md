# Permission store of the Spring reactive R2DBC template, in Dafny

This project models the persistence core of the Kotlin Spring WebFlux/R2DBC
template. It covers:

- the `permissions` table;
- the batch repository, which writes a whole list of `Permission` entities
  with one generated `INSERT ... RETURNING` or one `UPDATE ... CASE uuid ...`
  statement;
- the `PermissionService` operations get, create, update and delete;
- the identity of `BaseEntity` (`equals` and `hashCode`);
- the entity-to-DTO mapper;
- the blocking and the reactive auditor that name the current user;
- the global exception handler and its `ErrorType`.

The model is layered like the program:

- `Entity`, `Columns` and `Tables` hold the data. They describe the permission
  record, its mapped columns and how it converts to a row. A table is a map
  from uuid to row plus the next generated id.
- `Tables.Valid` is what the store guarantees of every row:
  - a unique id below the next one to be handed out;
  - a unique, non-null name;
  - a non-null description.
  
  Every operation keeps it. The service operations take it as their
  precondition: it is the state the database is always in.
- `BatchStatements` builds the two statements as data:
  - the active columns and the placeholder tuples of the insert;
  - the `CASE` branches and `WHERE uuid IN` targets of the update;
  - the binds issued for each.
  
  `Sql` declares the statement shapes, mirroring the text the repository sends.
- `Database` gives the two statement shapes their meaning over a table:
  - placeholders resolve through the bind map;
  - unbound placeholders are refused;
  - constraint violations are refused and leave the table unchanged;
  - `RETURNING id, uuid` yields the rows touched.
- `BatchRepository` is `insertAllReturningIds` and `updateAllReturningIds`:
  the guards, then the statement run, then `specEntitiesToIds`.
  - `BatchInsertEffect` proves what the insert does to the table.
  - `BatchUpdateEffect` does the same for the update.
  - `BatchUpdateProperties` proves consequences of both.
- `PermissionService` models the service's four operations as transitions
  `Outcome(table, result)`.
- `Security`, `AuditorConfig` and `ReactiveAuditorConfig` model the two
  auditors. `AuditorComparison` relates them.
- `GlobalExceptionHandler` and `Errors` map an exception to the error body
  a client receives.

Kotlin `null` is `Option`. A thrown exception is a `Failure` carrying an
`Exception(kind, message)`. The message is one of three things:

- the text the modelled code writes;
- no message, for Kotlin's `!!`;
- the throwing library's own message, whose wording the model leaves open.

JVM `Long` is a bounded subset type. The one increment the service performs
wraps around at `Long.MAX_VALUE`.

### Where the code departs from the intended optimistic-locking design

The model follows the code:

- `updatePermission` checks the version with a separate read. Its update then matches on `id` alone (`WHERE id = :id`), not on id and version, and the affected-row count is not checked. A concurrent writer between the read and the write is therefore not detected; the model's single-threaded transitions cannot show this race.
- A stale version is rejected with a plain `RuntimeException("Version mismatch")`. It is not an optimistic-lock exception, so the exception handler reports it as `GENERIC_EXCEPTION` with code 0 (`GlobalExceptionHandler.VersionMismatchIsGeneric`).
- The batch update writes whatever version each entity carries, with no check and no increment (`BatchUpdateProperties.VersionWrittenVerbatim`). Only the single-entity update bumps the version.
- Delete is unconditional: there is no version check.

## Model

| member | source | states |
|---|---|---|
| Entity.EqualsIsUuidEquality | src/main/kotlin/com/softeno/template/app/common/db/BaseEntity.kt:52-54 | an entity equals another entity exactly when their uuids are equal, and never equals null or an object of another class |
| Entity.EqualsIsEquivalence | src/main/kotlin/com/softeno/template/app/common/db/BaseEntity.kt:52-54 | `equals` is reflexive, symmetric and transitive |
| Entity.HashCodeConsistentWithEquals | src/main/kotlin/com/softeno/template/app/common/db/BaseEntity.kt:56-58 | equal entities have equal hash codes (UUID.hashCode of the uuid) |
| Entity.SameUuidMeansEqual | src/main/kotlin/com/softeno/template/app/common/db/BaseEntity.kt:52-54 | two entities that share a uuid but differ in name, description, id or version are still `equals`, although they are different records |
| Columns.PropNamesAreBindable | src/main/kotlin/com/softeno/template/app/permission/db/PermissionRepository.kt:108-110 | every mapped property name is made of letters, and property names and column names each identify their column |
| Columns.ColumnOfPropName | src/main/kotlin/com/softeno/template/app/permission/db/PermissionRepository.kt:108-110 | looking up a column by its property name finds that column |
| Columns.FromRowToRow | src/main/kotlin/com/softeno/template/app/common/db/BaseEntity.kt:28-50 | reading back the row an entity is written as gives the entity |
| Columns.ToRowFromRow | src/main/kotlin/com/softeno/template/app/common/db/BaseEntity.kt:28-50 | a row that reads as an entity is exactly the row that entity is written as |
| BindNames.SplitBindNameInverts | src/main/kotlin/com/softeno/template/app/permission/db/PermissionRepository.kt:118 | a placeholder `prop + index` splits back into its property name and index |
| BindNames.BindNameInjective | src/main/kotlin/com/softeno/template/app/permission/db/PermissionRepository.kt:126-131 | two placeholders are equal exactly when their property names and indexes are, so no bind overwrites another |
| Jvm.IncLong | src/main/kotlin/com/softeno/template/app/permission/service/PermissionService.kt:63 | `version + 1` adds one below `Long.MAX_VALUE`, wraps to `Long.MIN_VALUE` at it, and never returns the same value |
| Jvm.ParseDecOfDec | src/main/kotlin/com/softeno/template/app/permission/db/PermissionRepository.kt:118 | the decimal index written into a placeholder parses back to the index |
| Jvm.LongToString | src/main/kotlin/com/softeno/template/app/permission/service/PermissionService.kt:41 | the id in the "Not Found" message is its decimal text: a minus sign exactly for negative ids, then digits without leading zeros that read back as the magnitude |
| Jvm.DecOfParseDec | src/main/kotlin/com/softeno/template/app/permission/service/PermissionService.kt:41 | every digit string without leading zeros is the decimal text of the number it reads as, so text and number determine each other |
| Jvm.LongToStringIsUnique | src/main/kotlin/com/softeno/template/app/permission/service/PermissionService.kt:41 | any string with the sign, canonical digits and value `Long.toString` promises is exactly the text it produces |
| Tables.FindById | src/main/kotlin/com/softeno/template/app/permission/service/PermissionService.kt:41 | `findById` finds a row exactly when some stored row has that id, and returns that stored row |
| Tables.FindVersionById | src/main/kotlin/com/softeno/template/app/permission/db/PermissionRepository.kt:57-58 | `SELECT p.version ... WHERE p.id = :id` yields a value exactly when the row exists with a non-null version, and that value is the row's version |
| Tables.InsertRow | src/main/kotlin/com/softeno/template/app/permission/service/PermissionService.kt:47 | a stored row gets the next id, every other row is unchanged, and the table stays valid; a refusal is a data-integrity violation |
| Tables.InsertRowAccepts | src/main/kotlin/com/softeno/template/app/permission/Permission.kt:11-17 | the store accepts a row exactly when its uuid is new, an id is left, name and description are non-null and the name is not taken |
| Tables.DeleteById | src/main/kotlin/com/softeno/template/app/permission/service/PermissionService.kt:69 | after `deleteById` no row has the id, every row with another id is kept, no row is added, and validity is kept |
| PermissionMapper.ToDto | src/main/kotlin/com/softeno/template/app/permission/mapper/PermissionMapper.kt:17-29 | `toDto` succeeds exactly when name and description are non-null, and otherwise fails with a NullPointerException |
| PermissionMapper.ToDtoCopiesMetadata | src/main/kotlin/com/softeno/template/app/permission/mapper/PermissionMapper.kt:17-29 | the DTO carries the entity's id, version, audit fields, name and description, and does not depend on the uuid |
| PermissionMapper.UpdateFromDto | src/main/kotlin/com/softeno/template/app/permission/mapper/PermissionMapper.kt:31-36 | `updateFromDto` returns an entity `equals` to the one it started from |
| PermissionMapper.UpdateFromDtoTouchesThreeFields | src/main/kotlin/com/softeno/template/app/permission/mapper/PermissionMapper.kt:31-36 | `updateFromDto` sets name, description and version from the DTO and leaves every other field as it was |
| PermissionMapper.ToDtoAfterUpdateFromDto | src/main/kotlin/com/softeno/template/app/permission/mapper/PermissionMapper.kt:17-36 | mapping an updated entity gives the entity's id and audit fields with the DTO's version, name and description |
| PermissionMapper.UpdateFromOwnDtoIsIdentity | src/main/kotlin/com/softeno/template/app/permission/mapper/PermissionMapper.kt:17-36 | updating an entity from its own DTO gives the entity back |
| PermissionMapper.FreshEntityHasNoDto | src/main/kotlin/com/softeno/template/app/permission/Permission.kt:11-17 | a `Permission(uuid)` straight from the constructor keeps that uuid and has every other field null: no id, version, name, description or audit data; mapping it to a DTO throws the `!!` NullPointerException |
| BatchStatements.ActiveColumns | src/main/kotlin/com/softeno/template/app/permission/db/PermissionRepository.kt:108-116 | the insert lists each mapped column exactly once, and exactly those columns that some entity of the batch holds non-null |
| BatchStatements.InsertColumnsOmitIdKeepUuid | src/main/kotlin/com/softeno/template/app/permission/db/PermissionRepository.kt:101-116 | for a batch without ids the insert never names `id` and always names `uuid` |
| BatchStatements.InsertTuples | src/main/kotlin/com/softeno/template/app/permission/db/PermissionRepository.kt:117-119 | there is one `VALUES` tuple per entity, and the tuple for entity `idx` holds `:prop idx` for each active column in column order |
| BatchStatements.InsertPlaceholdersDistinct | src/main/kotlin/com/softeno/template/app/permission/db/PermissionRepository.kt:117-119 | two placeholders of the insert are the same name exactly when they sit at the same tuple and column |
| BatchStatements.InsertRowBinds | src/main/kotlin/com/softeno/template/app/permission/db/PermissionRepository.kt:126-131 | entity `idx` binds each active column's placeholder to that entity's value, null included |
| BatchStatements.UpdateProperties | src/main/kotlin/com/softeno/template/app/permission/db/PermissionRepository.kt:146-149 | the update considers every mapped column except those named `id` and `uuid`, each once |
| BatchStatements.WhensFrom | src/main/kotlin/com/softeno/template/app/permission/db/PermissionRepository.kt:152-157 | a column's `CASE` has one `WHEN :uuid idx THEN :prop idx` per entity whose value is non-null, and is empty exactly when every such value is null |
| BatchStatements.SetClauses | src/main/kotlin/com/softeno/template/app/permission/db/PermissionRepository.kt:151-161 | the `SET` list holds exactly the non-key columns that some entity holds non-null, each once, with that column's `CASE` branches |
| BatchStatements.UpdateTargets | src/main/kotlin/com/softeno/template/app/permission/db/PermissionRepository.kt:168 | `WHERE uuid IN` lists `:uuid idx` once for every entity, in order |
| BatchStatements.NonNullBinds | src/main/kotlin/com/softeno/template/app/permission/db/PermissionRepository.kt:176-181 | an entity binds exactly its non-null values, each under its own placeholder |
| BatchStatements.UpdateBindMapResolvesUuid | src/main/kotlin/com/softeno/template/app/permission/db/PermissionRepository.kt:174-175 | the parameter `:uuid idx` of the update resolves to entity `idx`'s uuid |
| BatchStatements.UpdateBindMapResolvesValue | src/main/kotlin/com/softeno/template/app/permission/db/PermissionRepository.kt:176-181 | the parameter `:prop idx` resolves to entity `idx`'s value whenever that value is non-null, whatever other entities bind |
| BatchStatements.InsertBindMapResolves | src/main/kotlin/com/softeno/template/app/permission/db/PermissionRepository.kt:126-131 | each placeholder of the insert resolves to its entity's value for its column |
| BatchRepository.EntitiesToIds | src/main/kotlin/com/softeno/template/app/permission/db/PermissionRepository.kt:81-96 | the result has exactly the batch's uuids as keys and each maps to the id returned with it; a uuid missing from the returned rows throws the message-less NullPointerException of `!!` |
| BatchRepository.InsertAllReturningIds | src/main/kotlin/com/softeno/template/app/permission/db/PermissionRepository.kt:98-134 | an empty batch returns an empty map, a batch with an id throws OperationNotPermitted with the source's message, and a result covers exactly the batch's uuids |
| BatchRepository.UpdateAllReturningIds | src/main/kotlin/com/softeno/template/app/permission/db/PermissionRepository.kt:136-185 | an empty batch or one with nothing to set returns an empty map untouched, a batch with a missing id throws OperationNotPermitted, and a result covers exactly the batch's uuids |
| BatchRepository.SetClausesCoverSetsSomething | src/main/kotlin/com/softeno/template/app/permission/db/PermissionRepository.kt:159-163 | the update has a `SET` clause exactly when some entity holds a non-null value outside `id` and `uuid` |
| BatchInsertEffect.EvalInsertIsInsertRows | src/main/kotlin/com/softeno/template/app/permission/db/PermissionRepository.kt:116-131 | running the generated insert with the generated binds stores exactly the batch's entities, in order |
| BatchInsertEffect.InsertRowsAccepts | src/main/kotlin/com/softeno/template/app/permission/db/PermissionRepository.kt:121-122 | the multi-row insert succeeds exactly when each entity has a new uuid, a name and a description, and no two of them or a stored row share a uuid or a name |
| BatchInsertEffect.InsertEffect | src/main/kotlin/com/softeno/template/app/permission/db/PermissionRepository.kt:98-134 | for a batch without ids the insert succeeds exactly when the store accepts every entity. On success each entity is stored unchanged under the next id in batch order, nothing else changes, and the map reports those ids. On failure the table is untouched and the error is a data-integrity violation |
| BatchUpdateEffect.MergedValue | src/main/kotlin/com/softeno/template/app/permission/db/PermissionRepository.kt:160 | a column's new value is the stored one or a non-null value some entity with that row's uuid supplies |
| BatchUpdateEffect.MergedValueFirst | src/main/kotlin/com/softeno/template/app/permission/db/PermissionRepository.kt:160 | when several entities share a uuid, the first with a non-null value for the column supplies it, as the first matching `WHEN` does |
| BatchUpdateEffect.MergedValueKeeps | src/main/kotlin/com/softeno/template/app/permission/db/PermissionRepository.kt:160 | a column no entity with the row's uuid sets keeps its stored value (`ELSE column`) |
| BatchUpdateEffect.CaseValueIsMerged | src/main/kotlin/com/softeno/template/app/permission/db/PermissionRepository.kt:152-160 | evaluating the generated `CASE uuid` for a row yields the merged value for that row |
| BatchUpdateEffect.UpdatedRowIsMerged | src/main/kotlin/com/softeno/template/app/permission/db/PermissionRepository.kt:151-167 | applying the `SET` list to a targeted row gives that row with every batch value merged in |
| BatchUpdateEffect.EvalUpdateIsEffect | src/main/kotlin/com/softeno/template/app/permission/db/PermissionRepository.kt:165-182 | the generated update with the generated binds produces exactly the merged table when that table is valid, and is refused as a data-integrity violation otherwise |
| BatchUpdateEffect.ReturnedIds | src/main/kotlin/com/softeno/template/app/permission/db/PermissionRepository.kt:81-96 | the id map of the rows `RETURNING` yields exists exactly when every batch uuid is stored, and maps each uuid to its stored id |
| BatchUpdateEffect.UpdateEffectOfBatch | src/main/kotlin/com/softeno/template/app/permission/db/PermissionRepository.kt:136-185 | an update that sets something either leaves the table and fails with a data-integrity violation, or writes the merged table. It then reports each entity's stored id when every uuid is stored, and otherwise throws a NullPointerException after the write |
| BatchUpdateProperties.UpdateIgnoresIds | src/main/kotlin/com/softeno/template/app/permission/db/PermissionRepository.kt:136-185 | the update matches rows by uuid only: changing the entities' (non-null) ids changes nothing in its effect or result |
| BatchUpdateProperties.UpdateKeepsIdentity | src/main/kotlin/com/softeno/template/app/permission/db/PermissionRepository.kt:146-149 | the update never changes a row's id or uuid, never adds or removes a row, and leaves rows outside the batch as they were |
| BatchUpdateProperties.PartialUpdateKeeps | src/main/kotlin/com/softeno/template/app/permission/db/PermissionRepository.kt:151-160 | a column no entity of the row sets keeps its stored value, so null fields in a batch are "leave as is" |
| BatchUpdateProperties.BatchValueWritten | src/main/kotlin/com/softeno/template/app/permission/db/PermissionRepository.kt:151-160 | a non-null value in the batch is written to its row, unless an earlier entity with the same uuid already sets that column |
| BatchUpdateProperties.VersionWrittenVerbatim | src/main/kotlin/com/softeno/template/app/permission/db/PermissionRepository.kt:146-160 | the update stores the version the entity carries, with no increment and no check against the stored version |
| BatchUpdateProperties.UpdateReturnsStoredIds | src/main/kotlin/com/softeno/template/app/permission/db/PermissionRepository.kt:136-185 | when all uuids are stored and the merged table is valid, the update succeeds and reports each row's stored id |
| BatchUpdateProperties.InsertThenUpdateKeepsIds | src/main/kotlin/com/softeno/template/app/permission/db/PermissionRepository.kt:69-75 | after a successful insert, an update of some of the inserted entities reports the same ids the insert reported |
| PermissionService.UpdateById | src/main/kotlin/com/softeno/template/app/permission/service/PermissionService.kt:60-63 | the update by id keeps the set of rows, the next id and validity, or fails as a data-integrity violation |
| PermissionService.UpdateByIdAccepts | src/main/kotlin/com/softeno/template/app/permission/service/PermissionService.kt:60-63 | rewriting name, description and version of the row with the id succeeds exactly when no other row holds the new name, and then touches only that row |
| PermissionService.GetPermission | src/main/kotlin/com/softeno/template/app/permission/service/PermissionService.kt:39-42 | get changes nothing, succeeds exactly when a row has the id and then returns `toDto` of that stored row (its name, description, version and audit fields), and otherwise throws `Exception("Not Found: <id>")` |
| PermissionService.CreatePermission | src/main/kotlin/com/softeno/template/app/permission/service/PermissionService.kt:44-50 | create keeps the table valid, and a refused insert leaves the table and throws a data-integrity violation |
| PermissionService.CreatePermissionEffect | src/main/kotlin/com/softeno/template/app/permission/service/PermissionService.kt:44-50 | create succeeds exactly when the uuid and the name are free and an id is left. It stores a fresh entity with the DTO's name and description, the next id and version 0, and returns its DTO |
| PermissionService.CreateIgnoresDtoMeta | src/main/kotlin/com/softeno/template/app/permission/service/PermissionService.kt:47 | create reads only name and description from the DTO: id, version and audit fields in the request do not matter |
| PermissionService.UpdatePermission | src/main/kotlin/com/softeno/template/app/permission/service/PermissionService.kt:52-65 | update throws NoSuchElement when no version is stored for the id and "Version mismatch" when the DTO's version differs. Any failure leaves the table unchanged, and the table stays valid |
| PermissionService.UpdatePermissionWrites | src/main/kotlin/com/softeno/template/app/permission/service/PermissionService.kt:52-65 | with a matching version, update succeeds exactly when the name is free. It then writes name, description and version + 1 to that row only and returns the row's DTO; otherwise it changes nothing |
| PermissionService.UpdateTwiceFails | src/main/kotlin/com/softeno/template/app/permission/service/PermissionService.kt:55-58 | repeating a successful update with the same DTO is refused with "Version mismatch": the version check is an optimistic lock |
| PermissionService.UpdateAcceptsReturnedDto | src/main/kotlin/com/softeno/template/app/permission/service/PermissionService.kt:52-65 | the DTO an update returns is accepted by the next update |
| PermissionService.GetAfterCreate | src/main/kotlin/com/softeno/template/app/permission/service/PermissionService.kt:39-50 | getting the id a create returned gives back the created DTO |
| PermissionService.GetAfterUpdate | src/main/kotlin/com/softeno/template/app/permission/service/PermissionService.kt:39-65 | getting the id after an update gives the DTO the update returned |
| PermissionService.DeletePermission | src/main/kotlin/com/softeno/template/app/permission/service/PermissionService.kt:67-70 | delete always completes, removes the row with the id, and keeps every other row |
| PermissionService.DeleteThenGone | src/main/kotlin/com/softeno/template/app/permission/service/PermissionService.kt:39-70 | after delete, get reports "Not Found" and deleting again changes nothing more |
| Security.SubClaim | src/main/kotlin/com/softeno/template/app/config/security/AuditorConfig.kt:24 | `claims["sub"] as String` yields the subject exactly when it is present as text, and otherwise throws a NullPointer or ClassCast exception |
| AuditorConfig.GetCurrentAuditor | src/main/kotlin/com/softeno/template/app/config/security/AuditorConfig.kt:15-31 | no or an unauthenticated authentication is audited as "system", and only a JWT principal can make the auditor fail |
| AuditorConfig.AuditorOfAuthenticated | src/main/kotlin/com/softeno/template/app/config/security/AuditorConfig.kt:21-30 | for an authenticated caller, a user-name principal is itself, a JWT is its subject, and anything else (null included) is "system" |
| ReactiveAuditorConfig.Map | src/main/kotlin/com/softeno/template/app/config/security/ReactiveAuditorConfig.kt:21-22 | Reactor's `map` passes emptiness and errors through unchanged |
| ReactiveAuditorConfig.FlatMap | src/main/kotlin/com/softeno/template/app/config/security/ReactiveAuditorConfig.kt:24-30 | Reactor's `flatMap` passes emptiness and errors through unchanged |
| ReactiveAuditorConfig.SwitchIfEmpty | src/main/kotlin/com/softeno/template/app/config/security/ReactiveAuditorConfig.kt:23 | `switchIfEmpty` leaves a value or an error as it is |
| ReactiveAuditorConfig.GetCurrentAuditor | src/main/kotlin/com/softeno/template/app/config/security/ReactiveAuditorConfig.kt:19-31 | the reactive auditor always emits a name or an error, never nothing, and with no security context it is "anonymous" |
| ReactiveAuditorConfig.ReactiveAuditorCases | src/main/kotlin/com/softeno/template/app/config/security/ReactiveAuditorConfig.kt:19-31 | no context is "anonymous"; a context without authentication or principal errors with a NullPointerException; a JWT is its subject whether or not it is authenticated; any other principal is "anonymous" |
| AuditorComparison.StringPrincipalDiffers | src/main/kotlin/com/softeno/template/app/config/security/ReactiveAuditorConfig.kt:24-30 | for a signed-in user-name principal the blocking auditor records the name and the reactive one records "anonymous" |
| AuditorComparison.JwtAgrees | src/main/kotlin/com/softeno/template/app/config/security/AuditorConfig.kt:23-28 | for an authenticated JWT both auditors record the same subject or fail with the same exception |
| AuditorComparison.UnauthenticatedJwtDiffers | src/main/kotlin/com/softeno/template/app/config/security/AuditorConfig.kt:17-19 | for a JWT not marked authenticated the blocking auditor records "system" while the reactive one records the subject |
| Errors.FromCode | src/main/kotlin/com/softeno/template/app/common/error/ErrorType.kt:5-7 | reading a code gives the constant declared with it, and nothing for an undeclared code |
| Errors.FromJsonValue | src/main/kotlin/com/softeno/template/app/common/error/ErrorType.kt:9-12 | reading a JSON value gives the constant whose name it is, and nothing for any other text |
| Errors.CodeDeterminesType | src/main/kotlin/com/softeno/template/app/common/error/ErrorType.kt:5-7 | the two constants carry different codes, so a code names one type |
| Errors.JsonValueRoundTrip | src/main/kotlin/com/softeno/template/app/common/error/ErrorType.kt:9-12 | writing an error type as JSON and reading it back gives the same type |
| GlobalExceptionHandler.Details | src/main/kotlin/com/softeno/template/app/common/api/config/GlobalExceptionHandler.kt:20-23 | the body carries the chosen type, the code it is declared with and the exception's message (the service's text, the library's, or none for `!!`), with status 500 |
| GlobalExceptionHandler.Handle | src/main/kotlin/com/softeno/template/app/common/api/config/GlobalExceptionHandler.kt:17-33 | every exception yields status 500 with its message. The type is the optimistic-locking one exactly for an `OptimisticLockException` and the generic one for everything else |
| GlobalExceptionHandler.ResponseIdentifiesType | src/main/kotlin/com/softeno/template/app/common/api/config/GlobalExceptionHandler.kt:17-33 | the client recovers the error type from the code or the JSON name, and code 1 means exactly an optimistic-lock exception |
| GlobalExceptionHandler.VersionMismatchIsGeneric | src/main/kotlin/com/softeno/template/app/permission/service/PermissionService.kt:56-58 | the service's "Version mismatch" `RuntimeException` reaches the client as a generic error with code 0 |

## Left out

- Reflection over the entity class is left out. The repository reads the `@Table` name and the `@Column` properties at run time. The model fixes the one entity class, `Permission`, with table `permissions` and one fixed order of its mapped properties. So the "Missing @Table annotation" error (PermissionRepository.kt lines 105-106 and 143-144) cannot arise and is not modelled.
- The `findBy` and `countBy` search queries and `getAllPermissions` are left out. Their paging, `LIKE` search and sort are SQL text the model does not interpret.
- Side effects the results do not depend on are left out: the Kafka message sent after create, the MDC coroutine context and logging.
- HTTP routing is not modelled. The exception handler's timestamp (a clock) and its request description (the servlet request) are left out of `ErrorDetails`.
- Audit fields are not modelled on save. Spring Data fills `createdBy`, `createdDate`, `modifiedBy` and `modifiedDate` through the auditor and the clock, so in the model they stay as given. The auditors are modelled separately and are not wired into save.
- Transactions are left out. Each SQL statement is atomic in the model: a refused statement leaves the table as it was. `@Transactional` rollback across several statements of the service is not modelled; in the modelled service no failure follows a write.
- The typing of null binds is not modelled. The insert binds a null for a column that some other entity of the batch holds non-null, and the model binds `Null` there. How the driver types such a null is not modelled.
- The store model is an assumption. `Tables.Valid` holds the constraints the entity declares: unique non-null name, non-null description, unique generated id. Stored uuids are assumed unique as the table's key. The `NOT NULL` on `createdBy` and `createdDate` is not enforced, as the template's own integration test stores entities with them null. Constraints are checked per statement: once per inserted row for `INSERT`, and on the finished table for `UPDATE` (see the `BatchUpdateEffect.EvalUpdateIsEffect` line below). A column the `INSERT` does not list is assumed to be stored as NULL: the schema is not part of this model, and a column default such as `version DEFAULT 0` or `created_date DEFAULT now()` would make `BatchInsertEffect.InsertEffect` store a field other than the one the entity gave.
- Tables.Valid: the unique name comes from the JPA annotation `@Column(unique = true)` on `Permission.name`, not from a schema the R2DBC repository is shown to use. The model keeps it, and so refuses a batch of two entities with the same name: `BatchInsertEffect.InsertEffect` and `PermissionService.CreatePermissionEffect` report a data-integrity violation there. The template's integration test (IntegrationTest.kt lines 150-171) inserts two fixture entities that share the default name "some permission" (PermissionFixture.kt line 7) and expects both to be stored, so against that test's database the model is stricter than the store.
- The service's `Permission(name = ..., description = ...)` constructor is the R2DBC variant of the entity. The JPA variant listed in `Permission.kt` has only a uuid constructor. The model builds the new entity from a fresh uuid, passed in as a parameter in place of `UUID.randomUUID()`, with the DTO's name and description.
- Spring Data gives a new entity with a `@Version` field version 0 on insert. `PermissionService.CreatedEntity` states this directly rather than modelling the framework's callback.
- PermissionService.UpdatePermission: `permissionDto.version + 1` is only reached after the version check passed, so the DTO's version equals the stored non-null version there. The increment uses that value, wrapping at `Long.MAX_VALUE` like the JVM.
- `GlobalExceptionHandler` is matched by exception kind. Spring's choice of the most specific `@ExceptionHandler` is reduced to one test: `OptimisticLockException` or anything else.
- The SQL text is not rendered. The two statements are modelled as the data the text is printed from: table, columns, placeholder tuples, `CASE` branches and targets. The string concatenation and `joinToString` that build the text are left out.
- Tables.InsertRow: a refused insert uses no id in the model. `nextId` stays where it was, and the same holds for `BatchInsertEffect.InsertEffect` and `PermissionService.CreatePermission`. Ids come from a database sequence, and PostgreSQL does not give back values drawn by a failed statement. After a refusal the store's next id can therefore be larger than the model's. Ids stay unique and increasing, but they are consecutive only across successful inserts.
- BatchUpdateEffect.EvalUpdateIsEffect: the store model checks the unique name at the end of the statement, on the merged table. PostgreSQL checks a non-deferrable unique constraint row by row as the update proceeds. So a batch that swaps the names of two stored rows is accepted here, together with `BatchUpdateEffect.UpdateEffectOfBatch`, and refused by PostgreSQL. For batches that do not move a name from one stored row to another, the two agree.
- Tables.FindVersionById: a stored row whose version is null is modelled as an empty result, so `updatePermission` throws `NoSuchElementException` from `awaitSingle`. Such rows arise from batch inserts without a version. Whether Spring Data R2DBC completes the `Mono<Long>` empty or fails while mapping the null column is library behaviour; the model assumes the first.
- PermissionMapper.UpdateFromDto: Kotlin changes the receiver in place and returns that same object, but the model returns a new record. The change to the caller's own reference is not modelled. No modelled operation calls `updateFromDto`: the service updates through an `Update` statement, so nothing in the model depends on the aliasing.
