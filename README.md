# Multi-tenant document routes, modelled in Dafny

This project models the document blueprint of a small multi-tenant
document API (`routes/documentos.py`). Every request carries an
`X-Tenant-ID` header. A gate (`identify_tenant`) resolves it against a
read-only registry of tenants and stores the tenant's id and database
settings in the request globals. Three routes then act for that tenant:

- `POST /upload` stores the file in one object-storage bucket shared by all
  tenants, under the key `tenant_id/filename`. It then inserts one
  `documents` row and one `codes` row per code, where the codes come from
  the free-text `codigos` field normalised by `_codes_list`.
- `GET /` runs one query. It returns one row per document, highest id
  first, with the document's codes sorted and joined by commas.
- `DELETE /<doc_id>` looks up the document's path and removes the object
  on a best-effort basis. It then deletes the code rows, then the document
  row.

Each statement commits on its own (`autocommit=True`): nothing is rolled
back. Each route closes its connection in a `finally`.

How the model is organised:

- **State.** Each tenant database is a value (`Database.Tables`: the
  `documents` rows, the `codes` rows and the AUTO_INCREMENT counter). The
  databases live in a mutable `Database.DatabaseServer`. The bucket is a
  mutable `ObjectStorage.ObjectStore`. The request globals are a mutable
  `Tenancy.RequestGlobals`.
- **Failures.** The environment chooses every failure and passes it in as
  a parameter (`Documents.Faults`):
  - whether the storage call raises;
  - whether connecting raises;
  - which SQL statement, if any, raises. Statements are numbered in the
    order the route runs them.
- **Routes.** Each route is written twice:
  - as a specification function of the request, the old state and the
    faults (`Documents.Upload`, `List`, `Delete`, and `Handle` for the
    whole blueprint);
  - as a method that performs the route's steps one at a time on the
    store and the server (`Documents.UploadDocument`, `ListDocuments`,
    `DeleteDocument`, `HandleRequest`).

  Each method is proved to have exactly the effect of its function. Each
  also leaves the number of open connections as it was, so every
  connection it opened was closed.
- **Properties.** The properties of the routes are lemmas about the
  specification functions, in `properties.dfy`.

Files:

| file | module | contents |
|---|---|---|
| wrappers.dfy | Wrappers | `Option`, `Result`, `Outcome` |
| sequences.dfy | Sequences | generic facts about the head and tail of a sequence |
| text.dfy | Text | the `str` operations the routes use: `strip`, `upper`, `replace`, `split`, `join` |
| codes.dfy | Codes | `_codes_list` and its properties |
| collation.dfy | Collation | the string order of `ORDER BY c.code`, and sorting |
| http.dfy | Http | response bodies and statuses |
| tenancy.dfy | Tenancy | the tenant registry, the request globals and `identify_tenant` |
| storage.dfy | ObjectStorage | the shared bucket |
| database.dfy | Database | tables, the meaning of each SQL statement, the listing query, the server and its connections |
| documents.dfy | Documents | the three routes and the request pipeline |
| properties.dfy | RouteProperties | what the routes promise, as lemmas |

Points where the code's behaviour is easy to misread:

- The object key is built from the tenant id and the sanitised filename
  only. A second upload of the same filename by one tenant writes the same
  key: it replaces the first object, and both `documents` rows hold the
  same path.
- `_codes_list` builds a list, not a set: order and duplicates are kept
  (`Codes.CodesListKeepsDuplicates`, `Database.CodesForCounts`).
- The two `DELETE`s of delete are separate auto-committed statements, not
  one transaction. A failure of the second leaves the document without its
  codes (`RouteProperties.DeleteDatabaseFailure`).
- A database error reaches the caller as the exception's own text, which
  the model carries as the fault's message.
- `get_db_connection()` is called before the `try` in every route. A
  connection failure is therefore an unhandled exception: Flask answers
  with its own 500 page, and there is no connection to close. In upload
  the object already stored stays in the bucket.

## Model

| member | source | states |
|---|---|---|
| Tenancy.ResolveTenant | routes/documentos.py:25-29 | a request has a tenant exactly when the header is present, non-empty and a registry key, and then the tenant is that key with its registry entry |
| Tenancy.RequestGlobals.IdentifyTenant | routes/documentos.py:17-29 | the gate refuses with 403 exactly when no tenant resolves and then stores nothing; otherwise it stores the header as tenant id and the registry entry as configuration |
| Codes.CodesList | routes/documentos.py:66-73 | `None` and `""` give `[]`; every code is non-empty, has no whitespace at either end, contains no comma or line feed, and has no lower-case letter |
| Codes.CodesListOfText | routes/documentos.py:71-73 | the early return for an empty field gives what the comprehension alone would give |
| Codes.CodesListAppend | routes/documentos.py:73 | order is kept: the codes of text joined at a comma or line feed are the codes of the left part followed by those of the right part |
| Codes.CodesListKeepsDuplicates | routes/documentos.py:73 | a code given twice appears twice in the list |
| Codes.CodesListOnePiece | routes/documentos.py:73 | a piece without separators gives nothing when it is blank and its stripped, upper-cased self otherwise |
| Codes.CodesListIdempotent | routes/documentos.py:73 | normalising the comma-join of a normalised list gives the same list |
| Codes.CodesListOfCode | routes/documentos.py:73 | a string that already has the shape of a code normalises to exactly itself |
| Codes.NormalizeCodes | routes/documentos.py:73 | the comprehension leaves a list of codes unchanged |
| Text.Strip | routes/documentos.py:73 | `strip()` gives the slice of its input between all-whitespace ends, with no whitespace at either end, and is empty exactly when the input is all whitespace |
| Text.Upper | routes/documentos.py:73 | `upper()` keeps the length, leaves no lower-case letter and changes only lower-case letters, each to its capital |
| Text.ReplaceNewlines | routes/documentos.py:73 | `replace("\n", ",")` keeps the length, turns every line feed into a comma and changes nothing else |
| Text.Split | routes/documentos.py:73 | `split(",")` gives at least one piece, no piece holds the separator, and joining the pieces with it gives the input back |
| Text.Join | routes/documentos.py:73 | `",".join` gives nothing for no parts, a single part unchanged, and otherwise the first part followed by the separator |
| Text.SplitJoin | routes/documentos.py:73 | splitting a join of separator-free pieces gives the pieces back |
| Text.StripNoOp | routes/documentos.py:73 | stripping a string with no whitespace at either end changes nothing |
| Text.UpperNoOp | routes/documentos.py:73 | upper-casing a string with no lower-case letter changes nothing |
| Documents.ObjectKey | routes/documentos.py:91 | the object key is the tenant id, a slash and the sanitised filename, each recoverable from the key |
| Documents.DisplayName | routes/documentos.py:105 | the document's name is the form's `name` unless it is missing or empty, and then the sanitised filename |
| Documents.UploadCodes | routes/documentos.py:116-117 | the `if codigos:` guard selects exactly the codes `_codes_list` gives, so it is redundant |
| Documents.Upload | routes/documentos.py:85-126 | upload keeps the set of databases, and every database stays well formed and referentially intact |
| Documents.UploadOn | routes/documentos.py:108-126 | on an open connection upload answers the new id, which no document had, exactly when no statement raises, and otherwise 500 with the error's text; a failing document insert changes nothing, and the tables stay well formed and referentially intact |
| Documents.UploadDocument | routes/documentos.py:85-126 | the steps of upload have exactly the effect of `Upload` on the bucket, the databases and the response, and close every connection they open |
| Documents.InsertRows | routes/documentos.py:108-126 | on an open connection upload's inserts have the effect of its statements up to the first that raises, then the connection is closed |
| Documents.InsertCodeRows | routes/documentos.py:116-121 | the loop inserts one code row per code, in order, and stops at the first insert that raises, leaving the earlier rows committed |
| Documents.UploadedTables | routes/documentos.py:111-121 | the tables after the first `n` upload statements stay well formed and referentially intact, and hold the old documents plus the new row |
| Documents.UploadedTablesStep | routes/documentos.py:117-121 | one more committed statement of the loop appends one more code row for the new id |
| Documents.List | routes/documentos.py:130-151 | the listing answers 200 exactly when connecting and the query succeed, and its body is then the query's rows (grouped, newest first); a failed connection or a missing database gives 500 with Flask's internal error page, a failed query 500 with the query's error text |
| Documents.ListDocuments | routes/documentos.py:134-151 | the steps of the listing route answer exactly `List`, change no table and close their connection |
| Database.ListQuery | routes/documentos.py:137-147 | the listing has one row per document, ids strictly descending, each row carrying the document's columns and the aggregate of its codes |
| Database.ByIdDescending | routes/documentos.py:144 | `ORDER BY d.id DESC` gives the same rows, highest id first |
| Database.Aggregate | routes/documentos.py:140 | `GROUP_CONCAT` is null exactly when the document has no code |
| Database.AggregateSplits | routes/documentos.py:140 | splitting a document's aggregate at commas gives its codes in ascending order |
| Database.AggregateIgnoresRowOrder | routes/documentos.py:140-142 | the aggregate depends only on which codes a document has, not on the order of the code rows |
| Database.CodesFor | routes/documentos.py:142 | a code is among a document's codes exactly when a code row pairs it with the document |
| Database.CodesForCounts | routes/documentos.py:142 | each code occurs among a document's codes as often as there are rows pairing it with the document |
| Collation.Sort | routes/documentos.py:140 | `ORDER BY c.code` gives an ascending permutation of the codes |
| Collation.AscendingUnique | routes/documentos.py:140 | two ascending arrangements of the same codes are equal, so the order is determined |
| Collation.SortPermutationInvariant | routes/documentos.py:140 | sorting any arrangement of the same codes gives the same list |
| Collation.LessEq | routes/documentos.py:140 | a code sorts before any code it is a prefix of, and otherwise the first differing character decides |
| Collation.LessEqFirstDifference | routes/documentos.py:140 | past a common prefix, two codes are ordered by the first position where they differ |
| Collation.LessEqTotal | routes/documentos.py:140 | any two codes are comparable |
| Collation.LessEqTransitive | routes/documentos.py:140 | the code order is transitive |
| Collation.LessEqAntisymmetric | routes/documentos.py:140 | codes that sort together are equal |
| Database.LookupPath | routes/documentos.py:167-168 | `fetchone()` finds no row exactly when no document has the id; otherwise it gives the path of the document with that id, which with distinct ids is the only one |
| Database.AddDocument | routes/documentos.py:111-115 | the insert gives the new row an id no document has and keeps the tables well formed and referentially intact |
| Database.AddCode | routes/documentos.py:118-121 | a code insert appends the code to that document's codes and leaves every other document's codes alone |
| Database.RemoveCodes | routes/documentos.py:180 | the code delete leaves the document with no codes and every other document's codes unchanged |
| Database.RemoveDocument | routes/documentos.py:181 | the document delete removes exactly the rows with that id and keeps ids distinct |
| Database.WithoutDocumentAbsent | routes/documentos.py:181 | deleting an id no document has changes nothing |
| Database.Committed | routes/documentos.py:46 | with autocommit, the statements before the first that raises stay committed, and all of them do when none raises |
| Database.TargetOf | routes/documentos.py:38-43 | the connection goes to the database named by the configuration's host and database name |
| Database.DatabaseServer.Connect | routes/documentos.py:32-47 | connecting gives a new open connection to the tenant's database, unless connecting raises or the database is not there |
| Database.Connection.InsertDocument | routes/documentos.py:111-115 | the insert adds the row and answers the counter's old value as `lastrowid`, or raises and changes nothing |
| Database.Connection.InsertCode | routes/documentos.py:118-121 | the code insert adds the row, or raises and changes nothing |
| Database.Connection.SelectPath | routes/documentos.py:167-168 | the select answers the document's path, or raises |
| Database.Connection.DeleteCodes | routes/documentos.py:180 | the code delete removes the document's code rows, or raises and changes nothing |
| Database.Connection.DeleteDocument | routes/documentos.py:181 | the document delete removes the row, or raises and changes nothing |
| Database.Connection.SelectListing | routes/documentos.py:137-147 | the listing query answers `ListQuery` of the tenant's tables, or raises |
| Database.Connection.Close | routes/documentos.py:125-126 | closing marks the connection closed and releases it |
| ObjectStorage.ObjectStore.UploadFileObj | routes/documentos.py:95-100 | on success the key holds the file's bytes and content type; on failure the bucket is unchanged |
| ObjectStorage.ObjectStore.DeleteObject | routes/documentos.py:172-175 | on success the key is gone; on failure the bucket is unchanged |
| Documents.StoredPath | routes/documentos.py:167-169 | delete hands storage a key exactly when the document exists with a path that is neither null nor empty, and then that path |
| Documents.PathKey | routes/documentos.py:169 | a fetched row yields a key exactly when there is a row whose path is neither null nor empty, and then that path |
| Documents.RemoveStoredObject | routes/documentos.py:169-178 | the guarded storage call removes the key when there is one and the call succeeds, and otherwise leaves the bucket alone; its outcome is dropped |
| Documents.Unstored | routes/documentos.py:170-178 | the bucket loses exactly the key when there is one and the call succeeds, and is otherwise unchanged |
| Documents.DeletedTables | routes/documentos.py:179-181 | the tables after the first `n` delete statements stay well formed and referentially intact |
| Documents.Delete | routes/documentos.py:163-186 | delete keeps the set of databases, and every database stays well formed and referentially intact |
| Documents.DeleteOn | routes/documentos.py:165-186 | on an open connection delete answers ok exactly when no statement raises, and otherwise 500 with `ok: false` and the error's text; a failing `SELECT` changes nothing; the bucket loses at most the document's stored path; the tables stay well formed and referentially intact |
| Documents.DeleteDocument | routes/documentos.py:163-186 | the steps of delete have exactly the effect of `Delete` and close every connection they open |
| Documents.RemoveRows | routes/documentos.py:165-186 | on an open connection delete's select, storage call and deletes have the effect of `DeleteOn`, then the connection is closed |
| Documents.DeleteRows | routes/documentos.py:179-181 | the code rows are deleted before the document row, stopping at the first delete that raises |
| Documents.Handle | routes/documentos.py:17-29 | the blueprint keeps the set of databases, and every database stays well formed and referentially intact |
| Documents.HandleRequest | routes/documentos.py:17-29 | a request runs the gate on fresh globals, then the matched route, with exactly the effect of `Handle`, closing every connection |
| RouteProperties.GateRunsFirst | routes/documentos.py:25-29 | the answer is 403 exactly when no tenant resolves, and then nothing changes; no route answers 403 itself |
| RouteProperties.UploadStorageBeforeDatabase | routes/documentos.py:85-108 | no file part gives 400 and no change; a storage failure gives 500 before the database; once stored, the object stays whatever the database does; a failed connection changes no table |
| RouteProperties.UploadSuccess | routes/documentos.py:105-122 | a full upload answers a fresh id and adds exactly one document row (display name, date, object key) and the normalised codes under that id, in order, changing nothing else |
| RouteProperties.UploadedRows | routes/documentos.py:111-121 | after the first `n` upload statements the new id holds exactly the first `n - 1` codes and every other id keeps its codes |
| RouteProperties.NoCodesForFreshId | routes/documentos.py:115 | no code row refers to the id the counter hands out next |
| RouteProperties.UploadListsNewestFirst | routes/documentos.py:137-147 | after an upload the listing has one more row, and its first row is the new document with its codes sorted and comma-joined, or null without codes |
| RouteProperties.NewestRowFirst | routes/documentos.py:144 | the document with the largest id is the first row of the listing |
| RouteProperties.UploadDatabaseFailure | routes/documentos.py:123-124 | a statement that raises gives 500 with its message; the statements before it stay committed |
| RouteProperties.DeleteStorageIsBestEffort | routes/documentos.py:169-178 | delete removes at most the document's own non-empty path, and whether that call raises changes neither the answer nor any table |
| RouteProperties.DeleteSuccess | routes/documentos.py:179-182 | a full delete answers ok; afterwards no document has the id and no code row refers to it, and everything else is unchanged |
| RouteProperties.DeleteRemovesStoredObject | routes/documentos.py:167-178 | once the `SELECT` has run, delete removes the document's object exactly when its path is neither null nor empty and the storage call succeeds, and otherwise leaves the bucket as it was |
| RouteProperties.DeleteDatabaseFailure | routes/documentos.py:183-184 | a statement that raises gives 500 with `ok: false`; a failing document delete leaves the document without its codes |
| RouteProperties.DeleteAbsent | routes/documentos.py:163-182 | deleting an id the tenant has no document for answers ok and changes nothing |
| RouteProperties.DeleteIdempotent | routes/documentos.py:163-182 | deleting the same id twice has the effect of deleting it once |
| RouteProperties.DeleteOnTwice | routes/documentos.py:165-182 | on one tenant's tables a second full delete of the same id finds nothing left to remove |
| RouteProperties.TenantStaysInItsPrefix | routes/documentos.py:88-91 | an admitted request changes no other tenant's database and touches only keys under its own tenant prefix |
| RouteProperties.UploadStaysInPrefix | routes/documentos.py:88-126 | upload puts only a key under the tenant's prefix and keeps the tenant's paths under it |
| RouteProperties.DeleteStaysInPrefix | routes/documentos.py:163-186 | delete removes only one of the tenant's own paths and changes no other database |
| RouteProperties.DeleteOnInPrefix | routes/documentos.py:165-181 | on one tenant's tables delete removes at most a path those tables hold and adds none |

## Left out

- Flask plumbing: the Blueprint routing, `jsonify`, `g` as a thread-local, and `app.py`/`wsgi.py`. A request is a value with its header and its matched route, and a response is a status with a body.
- HTTP header names are case-insensitive in Flask; the model takes the `X-Tenant-ID` value as already looked up.
- `utils/db.py` and `db.py` are not part of this model. The blueprint imports neither.
- `pymysql.connect` and `boto3.client` construction: they become the abstract server and bucket with injected failures. `get_s3_client()` at line 93 is called outside upload's `try`; a failure to build the client is not modelled separately from the storage call failing.
- `os.getenv("R2_BUCKET_NAME")`: the model has one bucket.
- Reading `tenants.json` at import time: the registry is a given immutable map.
- `secure_filename` is a parameter (an uninterpreted function), since its source is not shown.
- Text.Strip, Text.Upper: only ASCII whitespace and ASCII case mapping. Python's Unicode rules (for example `ß` to `SS`, which changes the length) are not modelled.
- Collation.LessEq: plain code-point order stands for the MySQL collation of `codes.code`, which may fold case and accents. The codes are upper-case already.
- Database.Aggregate: MySQL's `group_concat_max_len` truncation is not modelled.
- AUTO_INCREMENT is a counter in the tables that is only ever above every id. Its other internals and the code rows' own id column are not modelled, because the routes never read them.
- The `date` form field is an opaque optional string; MySQL's conversion of it is not modelled.
- A tenant whose configured database does not exist behaves as a connection that raises.
- Concurrent requests are not modelled, and neither is the warning `print` when a storage delete fails.
- RouteProperties.TenantStaysInItsPrefix: it assumes that the paths already stored in the tenant's `documents` lie under the tenant's prefix, which every route keeps. Two tenants configured with the same database would share tables; the model does not rule that out.
- RouteProperties.TenantStaysInItsPrefix: the prefix check is on strings, so tenant ids that nest (`acme` and `acme/eu`) give nested prefixes; the model leaves `secure_filename` unconstrained and does not use its removal of `/`, so the lemma and `SameOutside` do not separate one tenant's keys from a nested tenant's.
- Database.DatabaseServer.Valid: it demands well-formed `documents` but not that every code row refers to a stored document. The route lemmas that need this (UploadSuccess, UploadListsNewestFirst, UploadDatabaseFailure, DeleteAbsent) assume it of the starting tables, and every route keeps it (Documents.Handle). It is left out of Valid because the model's single code insert (Database.Connection.InsertCode) does not check the document id, so it could not keep Valid on its own; the database schema, which would say whether a foreign key checks it, is not part of this model.
