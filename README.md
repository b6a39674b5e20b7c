# cloudStorage: document versioning and access-control engine, in Dafny

This project models the engine at the centre of the cloudStorage service. Users own
documents. Every version of a document is kept as a separate blob, and other users
reach a document only through permission grants. Every access decision made for a
non-owner is written to an audit log.

The model works on three tables and a file namespace, each held as an abstract value:

- `documents`: a map from id to row, with an auto-increment counter for new ids.
- `permissions`: the grant rows, as a sequence in table order.
- `audit_log`: the audit rows, as a sequence in table order.
- The file namespace: a map from path to bytes.

The tables are fields of the class `Store.Database` and the files of `Store.FileSystem`.
The operations that change them are methods with `modifies` clauses. Decisions and
lookups are pure functions. A store or file-system call that can fail gets a fault
parameter (a boolean or a small datatype), so each contract says exactly what happens
when that call fails.

Modules, one per source file (plus shared helpers):

| module | file | models |
|---|---|---|
| `Outcomes` | outcomes.dfy | error values, `Result`/`Status`, the affected-rows check |
| `Perm` | perm.dfy | `pkg/access_control/models/models.go`: the flags and `PERM.String` |
| `Decimal` | decimal.dfy | `strconv.FormatInt(i, 10)` and its inverse, used to build file names |
| `Store` | store.dfy | the tables, the row layout of `pkg/documents/internal/db/model.go`, `os.Rename` |
| `AuditLog` | audit_log.dfy | `pkg/access_control/internal/db/audit_log.go` |
| `PermissionStore` | permission_store.dfy | `pkg/access_control/internal/db/permissions.go` |
| `AccessControl` | access_control.dfy | `pkg/access_control/permissions.go` |
| `DocumentStore` | document_store.dfy | `pkg/documents/internal/db/documents.go` |
| `Documents` | documents.dfy | `pkg/documents/documents.go` |

How the main operations are specified:

- Access control. `AccessControl.AuthoriseOrError` and `AccessControl.ShareDocument`
  are proved equal to the pure functions `Authorise` and `Sharing`. Those functions give
  the result and the rows the call appends. The lemmas about authorisation and sharing
  are stated over `Authorise` and `Sharing`.
- Documents. The methods state their new tables and files exactly: every row and every
  path they do not name keeps its old value. `Documents.StageAndMove` gives the files
  after staging and renaming. The methods also keep the invariant
  `Documents.Consistent`: a row at version 0 has no path, and a row at version `n >= 1`
  names `files/<id>_v<n>`, which holds exactly `size` bytes. `Documents.Retains` states
  that no blob a row names is ever overwritten or removed.
- Lists. A multi-row query can fail in three places: the query, the scan of one row,
  or the fetch of one row inside `rows.Next`. The last is the `NextFailsAt` fault. The
  code never checks `rows.Err()`, so that fault ends the loop early and the rows read so
  far come back as a success. The list functions are modelled as written, and each has
  a corrected twin that returns the error (see "## Findings"). `SharedDocuments` passes
  the as-written list on, and `SharedDocumentsChecked` the corrected one.

The code has these quirks, and the model keeps them:

- The owner path of `AuthoriseOrError` returns before any lookup and writes no audit
  row (pkg/access_control/permissions.go:16-18).
- `Update` does no authorisation (pkg/documents/documents.go:43-61).
- `Update` on a version-0 document calls `Upload`, which creates a new document owned
  by the caller. It does not fill in the given document (pkg/documents/documents.go:50-53).
- `replace` reads the row through a transaction, but it writes outside that transaction
  and never commits it (pkg/documents/documents.go:124-154). The model runs its steps in
  order, with no transaction.
- `replace` sets no media type or file name (pkg/documents/documents.go:140-141).
- `os.Rename` onto an existing path replaces the file there
  (pkg/documents/documents.go:135). A blob left behind by a failed update is therefore
  overwritten by the next attempt. The model proves that no blob a row names is ever
  overwritten.

## Model

| member | source | states |
|---|---|---|
| Outcomes.ExpectOneRow | pkg/documents/documents.go:146-152 | a single-row write succeeds exactly when it affected one row; otherwise the error carries the count it saw, as the message of `replace` does |
| Perm.Describe | pkg/access_control/models/models.go:11-19 | String returns one of the three texts, the read text only for exactly READ and the write text only for exactly WRITE |
| Perm.FlagsAreDistinctBits | pkg/access_control/models/models.go:5-9 | READ, WRITE and SHARE are non-zero single bits, and no two share a bit |
| Perm.UnionIsOr | pkg/access_control/models/models.go:5-9 | the capabilities of `p \| q` are the union of those of `p` and `q` |
| Perm.IntersectionIsAnd | pkg/access_control/models/models.go:5-9 | the capabilities of `p & q` are the intersection of those of `p` and `q` |
| Perm.CapabilitiesOfMaskOf | pkg/access_control/models/models.go:5-9 | building a mask from a set of capabilities and reading it back gives the same set |
| Perm.MaskOfCapabilities | pkg/access_control/models/models.go:5-9 | a mask made only of flag bits is rebuilt exactly from its capabilities |
| Perm.DescribeNamesOnlyReadAndWrite | pkg/access_control/models/models.go:11-19 | String gives the read text exactly for 1, the write text exactly for 2, and "Unknown permission type" for every other value |
| Perm.ShareMasksAreUnknown | pkg/access_control/models/models.go:8-18 | String of `SHARE \| p` is "Unknown permission type" for every `p` |
| Decimal.FormatInt | pkg/documents/documents.go:134 | the base-10 rendering is non-empty, made of digits and a minus sign, and starts with the minus sign exactly when the integer is negative |
| Decimal.FormatIntRoundTrip | pkg/documents/documents.go:134 | the decimal rendering of an int64 parses back to the same integer |
| Decimal.FormatIntInjective | pkg/documents/documents.go:134 | distinct integers have distinct decimal renderings |
| Store.Renamed | pkg/documents/documents.go:135 | after a rename the destination holds the source's bytes, the source is gone, and every other path is unchanged |
| Store.FileSystem.Rename | pkg/documents/documents.go:135-138 | os.Rename succeeds exactly when the source exists and no fault occurs; otherwise it is a file error and the files are unchanged |
| Store.RowsSeen | pkg/access_control/internal/db/permissions.go:50 | a `for rows.Next()` loop sees every row, unless a fetch fails inside `rows.Next`, in which case it sees fewer |
| AuditLog.Log | pkg/access_control/internal/db/audit_log.go:10-25 | success appends exactly one (user, document, action, timestamp) row; an exec failure is returned and appends nothing; existing rows never change |
| PermissionStore.GrantedMask | pkg/access_control/internal/db/permissions.go:10-25 | the mask read for (user, document) is 0 when the pair has no row, else the mask of its first row in table order |
| PermissionStore.GrantedMaskAppend | pkg/access_control/internal/db/permissions.go:27-29 | appending a grant row changes the mask read for a pair only if the pair had no row before |
| PermissionStore.GetPerms | pkg/access_control/internal/db/permissions.go:10-25 | errors exactly on a store failure; a missing row reads as mask 0, not as an error; otherwise returns the stored mask |
| PermissionStore.ShareDocument | pkg/access_control/internal/db/permissions.go:27-42 | always inserts one new row (document, user, permissions) and never updates or removes a row; an exec failure inserts nothing |
| PermissionStore.RowsForUser | pkg/access_control/internal/db/permissions.go:45 | the query returns every row of the user as often as it occurs in the table, and no other row |
| PermissionStore.RowsForUserMembers | pkg/access_control/internal/db/permissions.go:45 | a row is returned exactly when it is in the table and belongs to the user |
| PermissionStore.ListSharedDocuments | pkg/access_control/internal/db/permissions.go:44-59 | as written: one document id per matching row, duplicates kept, in row order; a failed query or scan returns an error; an error inside `rows.Next` returns success with only the ids read before it |
| PermissionStore.ListSharedDocumentsChecked | pkg/access_control/internal/db/permissions.go:44-59 | with `rows.Err()` checked: the id of every matching row in row order, or, on any fault that stops the scan, an error and no partial list |
| AccessControl.Permits | pkg/access_control/permissions.go:25 | the mask test passes exactly when no requested bit lies outside the granted mask |
| AccessControl.PermitsMonotone | pkg/access_control/permissions.go:25 | if a mask passes the test, every sub-mask passes too |
| AccessControl.PermitsNothing | pkg/access_control/permissions.go:25 | the empty request always passes the mask test |
| AccessControl.PermitsIsInclusion | pkg/access_control/permissions.go:25 | the mask test is inclusion of capability sets: one direction for every mask, both for masks made of flag bits |
| AccessControl.Authorise | pkg/access_control/permissions.go:15-33 | the owner passes with no lookup and no audit row; a failed lookup is returned before any write; otherwise exactly one audit row (Authorised or Unauthorised) unless that insert fails; success iff owner or (stored mask covers the request and the row was written); a denial only after its row is written |
| AccessControl.AuthoriseOrError | pkg/access_control/permissions.go:15-33 | returns Authorise's status and appends exactly Authorise's rows to the audit log |
| AccessControl.AuthoriseMonotone | pkg/access_control/permissions.go:15-33 | if a request for mask B succeeds, a request for any sub-mask of B succeeds too |
| AccessControl.AuthoriseNothing | pkg/access_control/permissions.go:15-33 | a request for mask 0 always succeeds when the store does not fail |
| AccessControl.Sharing | pkg/access_control/permissions.go:35-51 | authorises `SHARE\|permissions` first and stops on failure with only that decision's rows; then rejects the owner as target with no further row; a failed grant insert returns an error with no grant and no "Share" row; a failed "Share" row insert returns an error but keeps the grant; the grant is exactly (document, target, permissions), not OR-ed with SHARE; success iff authorised, target not owner and both inserts succeed; the access row and the "Share" row each carry their own timestamp |
| AccessControl.ShareDocument | pkg/access_control/permissions.go:35-51 | returns Sharing's status and appends exactly Sharing's grant rows and audit rows |
| AccessControl.NoSelfGrant | pkg/access_control/permissions.go:41-43 | the owner sharing with themselves fails with "can't share with owner" and writes nothing |
| AccessControl.SharingCannotEscalate | pkg/access_control/permissions.go:36-39 | a non-owner who shares holds SHARE and every capability they grant |
| AccessControl.ShareThenAuthorise | pkg/access_control/permissions.go:45-50 | after a successful share to a user with no earlier row, that user is authorised for exactly the requests the shared mask covers |
| AccessControl.ReshareIsShadowed | pkg/access_control/permissions.go:45-47 | sharing again with a user who already has a row changes none of that user's authorisation decisions |
| AccessControl.GranteeCannotReshare | pkg/access_control/permissions.go:36-50 | a grantee given a mask without SHARE is denied any further share |
| AccessControl.ShareAccessRowIsUnknown | pkg/access_control/permissions.go:26-36 | the access row a non-owner's share writes always names "Unknown permission type" |
| AccessControl.SharedDocuments | pkg/access_control/permissions.go:53-55 | passes the as-written list on unchanged: success exactly when neither the query nor a scan fails, a store error otherwise; on success one document id per grant row of the user, duplicates kept, in row order, for exactly the rows `rows.Next` delivered: all of them, or, when it stops early, the first ones, still as a success; so every id listed is a document the user has a grant row for, and every such document is listed unless `rows.Next` stops early |
| AccessControl.SharedDocumentsChecked | pkg/access_control/permissions.go:53-55 | over the corrected list: success exactly when the scan completes, a store error otherwise; on success one document id per grant row of the user, duplicates kept, in row order, so the list holds a document id exactly when the user has a grant row for that document |
| AccessControl.ListedIdsAreGrants | pkg/access_control/internal/db/permissions.go:50-57 | the ids of a prefix of the user's rows name only documents the user has a row for, and the ids of all of them name every such document |
| DocumentStore.Get | pkg/documents/internal/db/documents.go:14-28 | returns all seven columns of the row with the id; a missing row is sql.ErrNoRows; a store failure is an error |
| DocumentStore.OwnedRows | pkg/documents/internal/db/documents.go:31 | every row returned is a row of the table, stored under its id and owned by the user; ids strictly increase, so no row is returned twice |
| DocumentStore.OwnedRowsComplete | pkg/documents/internal/db/documents.go:31 | every row of the user in the id range is returned |
| DocumentStore.OwnedRowsPrefix | pkg/documents/internal/db/documents.go:37-45 | scanning further only adds rows at the end |
| DocumentStore.OwnedRowsAreTheUsersRows | pkg/documents/internal/db/documents.go:30-46 | over a valid table the query returns a row exactly when it is in the table and owned by the user, and returns no row twice |
| DocumentStore.ListDocuments | pkg/documents/internal/db/documents.go:30-46 | as written: the owner's rows in id order; a failed query or scan returns an error; an error inside `rows.Next` returns success with only the rows read before it |
| DocumentStore.ListDocumentsChecked | pkg/documents/internal/db/documents.go:30-46 | with `rows.Err()` checked: exactly the owner's rows, or, on any fault that stops the scan, an error and no partial list |
| DocumentStore.UpdateDocument | pkg/documents/internal/db/documents.go:48-63 | sets path, version, size, media type and file name of the row; id, owner and other rows unchanged; fails unless exactly one row is affected, leaving the table unchanged |
| Documents.PathsLieInTheirDirectories | pkg/documents/documents.go:74 | a staging path is a file name strictly inside the temporary directory, and a durable path (documents.go:134) one strictly inside `files/` |
| Documents.DurablePathInjective | pkg/documents/documents.go:134 | `files/<id>_v<version>` is injective in (id, version): no two versions of any documents share a path |
| Documents.TempPathInjective | pkg/documents/documents.go:74 | distinct documents are staged at distinct paths |
| Documents.TempPathIsNotDurable | pkg/documents/documents.go:74 | no staging path is a durable path |
| Documents.TempPathUnreferenced | pkg/documents/documents.go:73-85 | in a consistent table no row names a staging path |
| Documents.LaterVersionUnreferenced | pkg/documents/documents.go:134-135 | in a consistent table no row names a version of a document beyond its current one, so the rename never hits a named blob |
| Documents.WriteUnreferenced | pkg/documents/documents.go:73-85 | writing a file no row names keeps the table consistent and every named blob unchanged |
| Documents.RenameUnreferenced | pkg/documents/documents.go:134-138 | renaming between paths no row names keeps the table consistent and every named blob unchanged |
| Documents.PromoteKeepsConsistent | pkg/documents/documents.go:140-141 | setting a row to the next version, its path and the staged blob's size keeps the table consistent |
| Documents.StageKeepsConsistent | pkg/documents/documents.go:73-85 | staging bytes for a document keeps the table consistent and every named blob unchanged |
| Documents.RenameStaged | pkg/documents/documents.go:134-138 | moving a document's staged blob to its next version's path keeps the table consistent and every named blob unchanged |
| Documents.PromoteStaged | pkg/documents/documents.go:134-141 | after that move, promoting the row to the moved blob keeps the table consistent when the blob has the recorded size |
| Documents.PromoteAdvances | pkg/documents/documents.go:129-141 | promotion sets the version to exactly the old version + 1, keeps id and owner, and moves to a path the row never had before |
| Documents.SingleRow | pkg/documents/documents.go:99-120 | no rows is "document not found", a second row is "multiple rows found", query and scan failures are errors; otherwise the one row |
| Documents.GetDocument | pkg/documents/documents.go:99-120 | get returns only the row stored under the id, and fails only with a store error or "document not found" |
| Documents.GetDocumentFindsTheRow | pkg/documents/documents.go:99-120 | as id is the primary key, get returns the row unless the store fails, reports a missing id as not found, and never finds several rows |
| Documents.New | pkg/documents/documents.go:34-41 | inserts a version-0 row owned by the user under the next auto-increment id, which is positive and fresh; a failed insert changes nothing |
| Documents.CreateTempFile | pkg/documents/documents.go:73-85 | writes the bytes to `tempDir/<id>` and reports a byte count equal to the input length; a failed create changes nothing; a failed copy or close is an error and leaves the partial file |
| Documents.Replace | pkg/documents/documents.go:122-155 | reads the row, renames the staged blob to the next version's path, then sets path, version + 1 and size; fails unless exactly one row is affected; returns each step's error unchanged: a store error from Begin, the error of get, a file error from the rename, a store error from the update; a failure before the rename changes nothing, a failed update leaves the row unchanged; preserves Consistent and every named blob |
| Documents.StageAndMoveFrame | pkg/documents/documents.go:21-26 | staging and renaming change no path but the staging path and the target; a completed move leaves the bytes at the target and removes the staging file; an interrupted one leaves the bytes written at the staging path |
| Documents.StageAndReplace | pkg/documents/documents.go:55-60 | succeeds exactly when staging and every step of replace succeed; then the row is promoted, otherwise it is unchanged and the error is the failed step's own (file error from staging or the rename, store error otherwise); the files are exactly StageAndMove of the old files; preserves Consistent and every named blob |
| Documents.PlaceholderThenStore | pkg/documents/documents.go:16-26 | inserting a version-0 row and then storing blobs for it keeps a consistent table consistent and keeps every blob it named |
| Documents.Upload | pkg/documents/documents.go:14-32 | returns the fresh positive id; on success the row is version 1 at `files/<id>_v1` with size equal to the bytes read, and that blob holds them; a failure returns the failed step's own error (store error from the insert, file error from staging, then replace's); after the insert, any failure leaves the version-0 row; no other row changes; the files are exactly StageAndMove of the old files for the new id, so only its staging path and `files/<id>_v1` change |
| Documents.Update | pkg/documents/documents.go:43-61 | a failed get returns its error and changes nothing; a version-0 document is left untouched and a new document is uploaded for the caller, with Upload's error, counter, rows and files; otherwise the row moves to version + 1 with the new size, or is unchanged on failure with the failed step's own error, and only the document's staging path and next version path change; preserves Consistent and every named blob |

## Left out

- HTTP routing, request decoding, JSON encoding and the mapping from errors to status codes (api/routes.go) are I/O plumbing around the engine.
- User registration, password hashing and login rest on SHA-512, crypto/rand and base64. A user id is an input to the model.
- Connection setup, schema migration and the entry points are configuration. pkg/access_control/audit_log.go is a broken duplicate of `Log` that nothing live calls. The users, db and migrate packages are not part of this model.
- Concurrency and transactions are not modelled. Operations run one after another. `replace` opens a transaction but writes outside it and never commits, so the model claims no isolation.
- The connection pool is not modelled. `replace` neither commits nor rolls back its transaction (pkg/documents/documents.go:124-154), so every call keeps one pooled connection. With `SetMaxOpenConns(10)` (pkg/db/db.go:22), `dbc.Begin()` blocks for ever once ten calls have run. The model lets every call proceed.
- `RowsAffected` is assumed never to return an error. In the code that error comes after the row has been written, so the row would stay and the call would still fail (pkg/access_control/internal/db/audit_log.go:17-20, pkg/access_control/internal/db/permissions.go:33-36, pkg/documents/documents.go:146-149, pkg/documents/internal/db/documents.go:55-58). The model's exec fault writes nothing.
- A nil reader makes `io.Copy` panic (pkg/documents/documents.go:80) after `new` has inserted the row and `os.Create` has created the file. The model's reader is always a byte sequence, so it has no panic; a copy error is `CopyFails`.
- `Documents.SingleRow`: an error while fetching the first row inside `rows.Next` (pkg/documents/documents.go:105-107) is reported as "document not found". The model's query fault returns a store error, and it has no fault that turns a driver error into "not found".
- The file system is a map from path to bytes. `os.Create`, `io.Copy` and `file.Close` are single steps. The reader is the byte sequence it yields, and a reader error is a copy fault.
- The temporary directory is created once at start-up under a random name. The model fixes its name as "/tmp/staging".
- Every audit row reads `time.Now()` itself (pkg/access_control/internal/db/audit_log.go:12). The model takes one timestamp parameter per audit row: `Authorise` one, `Sharing` two (`authNow` for the access row, `shareNow` for the "Share" row). No order between the readings is assumed.
- `Outcomes.ExpectOneRow`: its error carries the row count, which the messages of the audit-log and grant inserts omit (pkg/access_control/internal/db/audit_log.go:21-23, pkg/access_control/internal/db/permissions.go:37-39). Error texts are not modelled.
- Driver and file-system errors are collapsed into `StoreError` and `FileError`. Wrapped error texts are not modelled.
- "Rows affected" is modelled as the number of rows inserted or matched. A MySQL update that changes no value would report 0 rows and fail. The model does not capture that.
- `LastInsertId` returning an error is not modelled. `new` fails only when the insert fails.
- Ids, versions and sizes are unbounded integers. The int64 overflow of `version + 1` at 2^63 - 1 is not modelled.
- The table schema, with the column defaults of the row that `new` inserts, is not part of this model. The model takes an empty path, version 0, size 0, and empty media type and file name.
- `get` in documents.go reads five columns. The model returns the whole row, and the two extra columns are not used.
- `PermissionStore.GetPerms`: the query (pkg/access_control/internal/db/permissions.go:11) has no ORDER BY, so when a pair has several rows the store chooses which one `QueryRowContext` returns. The model reads the first row in table order (`PermissionStore.GrantedMask`). `AccessControl.ReshareIsShadowed` rests on that choice: a store that returned a later row would let a re-share change the grantee's access.
- `DocumentStore.ListDocuments` assumes the store returns rows in ascending id order, since the query has no ORDER BY. `PermissionStore.ListSharedDocuments` returns grant rows in insertion order.
- `OpenDocument` and the `ListDocuments` of the documents package are called from api/routes.go but are not in documents.go, so they are not part of this model. Nor are the media type and file name arguments those callers pass.

## Findings

| source | as written | input that shows it | evidently intended | confidence | as-written member | corrected member |
|---|---|---|---|---|---|---|
| pkg/access_control/internal/db/permissions.go:50-58 | the `for rows.Next()` loop never checks `rows.Err()`, so a driver error or a cancelled context while fetching a row ends the loop, and the ids read so far are returned with a nil error | a user with three grant rows and a fetch error at the second row (`NextFailsAt(1)`): the call returns a success holding only the first id | return the error after the loop, as a failed scan does | not executed | PermissionStore.ListSharedDocuments | PermissionStore.ListSharedDocumentsChecked |
| pkg/documents/internal/db/documents.go:37-45 | the same loop without a `rows.Err()` check returns the documents read so far as a complete list | a user owning three documents and a fetch error at the second row (`NextFailsAt(1)`): the call returns a success holding only the first document | return the error after the loop, as a failed scan does | not executed | DocumentStore.ListDocuments | DocumentStore.ListDocumentsChecked |
| pkg/access_control/permissions.go:53-55 | `SharedDocuments` returns the store's list unchanged, so the truncated success of the row above reaches the caller | the same three grant rows and `NextFailsAt(1)`: `SharedDocuments` succeeds with only the first id | the error, through the corrected list | not executed | AccessControl.SharedDocuments | AccessControl.SharedDocumentsChecked |
