/**
 * What the three routes and the tenant gate promise, stated over their
 * specification functions for every request, old state and fault.
 */
module RouteProperties {
  import opened Wrappers
  import opened Text
  import opened Codes
  import opened Collation
  import opened Http
  import opened Tenancy
  import opened ObjectStorage
  import opened Database
  import opened Documents
  import opened Sequences

  /** `key` lies in the tenant's part of the shared bucket: it starts with the tenant id and a slash. */
  predicate InTenantPrefix(key: string, tenantId: string) {
    |tenantId| + 1 <= |key| && key[..|tenantId| + 1] == tenantId + "/"
  }

  /** Every path stored in the tenant's `documents` lies in the tenant's part of the bucket. */
  ghost predicate PathsUnder(t: Tables, tenantId: string) {
    forall d :: d in t.documents && d.path.Some? ==> InTenantPrefix(d.path.value, tenantId)
  }

  // ---------------------------------------------------------------------
  // The tenant gate

  /**
   * A request without a registered tenant is answered 403 and changes
   * nothing; an admitted request gets its route's effect for that tenant,
   * and no route answers 403 itself.
   */
  lemma GateRunsFirst(registry: Registry, request: Request, secureFilename: string -> string,
                      objects: map<string, StoredObject>, tables: Databases, faults: Faults)
    requires AllWellFormed(tables)
    ensures var e := Handle(registry, request, secureFilename, objects, tables, faults);
            var h := request.tenantHeader;
            && (ResolveTenant(registry, h).None? <==> e.response == Forbidden)
            && (ResolveTenant(registry, h).None? ==> e.objects == objects && e.tables == tables)
            && (ResolveTenant(registry, h).None? <==> e.response.status == 403)
  {
    var e := Handle(registry, request, secureFilename, objects, tables, faults);
    match ResolveTenant(registry, request.tenantHeader)
    case None =>
    case Some(tenant) =>
      match request.route
      case UploadRoute(file, form) =>
      case ListRoute =>
      case DeleteRoute(docId) =>
        var target := TargetOf(tenant.config);
        if faults.connect.Pass? && target in tables {
          var n := Committed(faults.statements, 3);
          assert e.response.status == 200 || e.response.status == 500;
        }
  }

  // ---------------------------------------------------------------------
  // Upload

  /**
   * Upload without a file answers 400 and changes nothing; a failed
   * storage upload answers 500 before the database is reached; once the
   * object is stored at `tenant/filename` it stays there whatever the
   * database does, and a failed connection leaves every table as it was.
   */
  lemma UploadStorageBeforeDatabase(tenant: Tenant, file: Option<FilePart>, form: UploadForm, secureFilename: string -> string,
                                    objects: map<string, StoredObject>, tables: Databases, faults: Faults)
    requires AllWellFormed(tables)
    ensures var e := Upload(tenant, file, form, secureFilename, objects, tables, faults);
            && (file.None? ==> e == Effect(Response(400, ErrorBody(MissingFileMessage)), objects, tables))
            && (file.Some? && faults.storage.Fail? ==>
                  e == Effect(Response(500, ErrorBody(StorageErrorPrefix + faults.storage.message)), objects, tables))
            && (file.Some? && faults.storage.Pass? ==>
                  e.objects == objects[ObjectKey(tenant.id, secureFilename(file.value.filename))
                                         := StoredObject(file.value.body, file.value.contentType)])
            && (file.Some? && faults.storage.Pass? && (faults.connect.Fail? || TargetOf(tenant.config) !in tables) ==>
                  e.response == Response(500, InternalServerError) && e.tables == tables)
  {
  }

  /**
   * A fully successful upload answers with the new id, which no document
   * had; it adds exactly one document row (display name, date, object key)
   * and one code row per normalised code, in order, and leaves every other
   * document, every other document's codes and every other database alone.
   */
  lemma UploadSuccess(tenant: Tenant, f: FilePart, form: UploadForm, secureFilename: string -> string,
                      objects: map<string, StoredObject>, tables: Databases, faults: Faults)
    requires AllWellFormed(tables)
    requires faults.storage.Pass? && faults.connect.Pass? && faults.statements.NoFault?
    requires TargetOf(tenant.config) in tables && Referential(tables[TargetOf(tenant.config)])
    ensures var target := TargetOf(tenant.config);
            var t := tables[target];
            var e := Upload(tenant, Some(f), form, secureFilename, objects, tables, faults);
            var filename := secureFilename(f.filename);
            var row := DocumentRow(t.autoIncrement, DisplayName(form.name, filename), form.date, Some(ObjectKey(tenant.id, filename)));
            && e.response == Response(200, Uploaded(t.autoIncrement))
            && t.autoIncrement !in Ids(t.documents)
            && (forall d :: d in e.tables[target].documents <==> d in t.documents || d == row)
            && CodesFor(e.tables[target].codes, t.autoIncrement) == CodesList(form.codigos)
            && (forall other :: other != t.autoIncrement ==> CodesFor(e.tables[target].codes, other) == CodesFor(t.codes, other))
            && (forall k :: k in tables && k != target ==> e.tables[k] == tables[k])
  {
    var target := TargetOf(tenant.config);
    var t := tables[target];
    var filename := secureFilename(f.filename);
    var codes := CodesList(form.codigos);
    UploadReachesDatabase(tenant, f, form, secureFilename, objects, tables, faults);
    UploadedRows(t, DisplayName(form.name, filename), form.date, ObjectKey(tenant.id, filename), codes, |codes| + 1);
    assert codes[..|codes|] == codes;
  }

  /** Once the object is stored and the connection is open, upload's effect is that of its statements on the tenant's tables. */
  lemma UploadReachesDatabase(tenant: Tenant, f: FilePart, form: UploadForm, secureFilename: string -> string,
                              objects: map<string, StoredObject>, tables: Databases, faults: Faults)
    requires AllWellFormed(tables)
    requires faults.storage.Pass? && faults.connect.Pass? && TargetOf(tenant.config) in tables
    ensures var target := TargetOf(tenant.config);
            var filename := secureFilename(f.filename);
            var key := ObjectKey(tenant.id, filename);
            var w := UploadOn(tables[target], DisplayName(form.name, filename), form.date, key,
                              CodesList(form.codigos), faults.statements);
            Upload(tenant, Some(f), form, secureFilename, objects, tables, faults)
              == Effect(w.0, objects[key := StoredObject(f.body, f.contentType)], tables[target := w.1])
  {
  }

  /**
   * The tenant's tables after the first `n` (at least one) of upload's
   * statements: the old documents plus the new row, and under the new id
   * exactly the first `n - 1` codes; every other id keeps its codes.
   */
  lemma UploadedRows(t: Tables, name: string, date: Option<string>, key: string, codes: seq<string>, n: nat)
    requires WellFormed(t) && Referential(t)
    requires 1 <= n <= |codes| + 1
    ensures var r := UploadedTables(t, name, date, key, codes, n);
            && r.documents == t.documents + [DocumentRow(t.autoIncrement, name, date, Some(key))]
            && CodesFor(r.codes, t.autoIncrement) == codes[..n - 1]
            && (forall other :: other != t.autoIncrement ==> CodesFor(r.codes, other) == CodesFor(t.codes, other))
  {
    var id := t.autoIncrement;
    var rows := CodeRows(id, codes[..n - 1]);
    CodesForAppend(t.codes, rows, id);
    CodesForCodeRows(id, codes[..n - 1], id);
    NoCodesForFreshId(t);
    forall other | other != id
      ensures CodesFor(t.codes + rows, other) == CodesFor(t.codes, other)
    {
      CodesForAppend(t.codes, rows, other);
      CodesForCodeRows(id, codes[..n - 1], other);
    }
  }

  /** No code row refers to the id the counter hands out next. */
  lemma NoCodesForFreshId(t: Tables)
    requires WellFormed(t) && Referential(t)
    ensures CodesFor(t.codes, t.autoIncrement) == []
  {
    var codes := CodesFor(t.codes, t.autoIncrement);
    assert forall c :: CodeRow(t.autoIncrement, c) !in t.codes;
    FirstIsMember(codes);
  }

  /**
   * After a successful upload the listing has one more row, and its first
   * row is the new document, with its codes sorted and joined by commas
   * (null when it has none).
   */
  lemma UploadListsNewestFirst(tenant: Tenant, f: FilePart, form: UploadForm, secureFilename: string -> string,
                               objects: map<string, StoredObject>, tables: Databases, faults: Faults)
    requires AllWellFormed(tables)
    requires faults.storage.Pass? && faults.connect.Pass? && faults.statements.NoFault?
    requires TargetOf(tenant.config) in tables && Referential(tables[TargetOf(tenant.config)])
    ensures var target := TargetOf(tenant.config);
            var t := tables[target];
            var e := Upload(tenant, Some(f), form, secureFilename, objects, tables, faults);
            var filename := secureFilename(f.filename);
            var codes := CodesList(form.codigos);
            var rows := List(tenant, e.tables, faults).body.rows;
            && List(tenant, e.tables, faults).status == 200
            && |rows| == |t.documents| + 1
            && rows[0] == ListRow(t.autoIncrement, DisplayName(form.name, filename), form.date,
                                  Some(ObjectKey(tenant.id, filename)), Aggregate(codes))
            && (rows[0].codigos.None? <==> codes == [])
            && (codes != [] ==> Split(rows[0].codigos.value, ',') == Sort(codes))
  {
    UploadSuccess(tenant, f, form, secureFilename, objects, tables, faults);
    var t := tables[TargetOf(tenant.config)];
    var e := Upload(tenant, Some(f), form, secureFilename, objects, tables, faults);
    var t2 := e.tables[TargetOf(tenant.config)];
    var filename := secureFilename(f.filename);
    var codes := CodesList(form.codigos);
    var row := DocumentRow(t.autoIncrement, DisplayName(form.name, filename), form.date, Some(ObjectKey(tenant.id, filename)));
    assert t2.documents == t.documents + [row];
    NewestRowFirst(t2, row);
    if codes != [] {
      AggregateSplits(codes);
    }
  }

  /** A document whose id is the largest is the first row of the listing. */
  lemma NewestRowFirst(t: Tables, row: DocumentRow)
    requires WellFormed(t) && row in t.documents
    requires forall d :: d in t.documents ==> d.id <= row.id
    ensures ListQuery(t) != [] && ListQuery(t)[0] == RowFor(t, row)
  {
    var rows := ListQuery(t);
    assert RowFor(t, row) in rows;
    var k :| 0 <= k < |rows| && rows[k] == RowFor(t, row);
    assert rows[0] in rows;
    assert rows[0].id <= row.id;
    assert k == 0;
  }

  /**
   * When a database statement of the upload raises, the answer is 500 with
   * its message; the statements before it have committed (no transaction):
   * with the document insert failing nothing changed, otherwise the
   * document row stays with the codes inserted before the failing one.
   */
  lemma UploadDatabaseFailure(tenant: Tenant, f: FilePart, form: UploadForm, secureFilename: string -> string,
                              objects: map<string, StoredObject>, tables: Databases, faults: Faults)
    requires AllWellFormed(tables)
    requires faults.storage.Pass? && faults.connect.Pass? && faults.statements.FailsAt?
    requires faults.statements.step <= |CodesList(form.codigos)|
    requires TargetOf(tenant.config) in tables && Referential(tables[TargetOf(tenant.config)])
    ensures var target := TargetOf(tenant.config);
            var t := tables[target];
            var e := Upload(tenant, Some(f), form, secureFilename, objects, tables, faults);
            var filename := secureFilename(f.filename);
            var k := faults.statements.step;
            var row := DocumentRow(t.autoIncrement, DisplayName(form.name, filename), form.date, Some(ObjectKey(tenant.id, filename)));
            && e.response == Response(500, ErrorBody(faults.statements.message))
            && (k == 0 ==> e.tables == tables)
            && (k > 0 ==> row in e.tables[target].documents
                          && CodesFor(e.tables[target].codes, t.autoIncrement) == CodesList(form.codigos)[..k - 1])
  {
    var k := faults.statements.step;
    var filename := secureFilename(f.filename);
    UploadReachesDatabase(tenant, f, form, secureFilename, objects, tables, faults);
    if k > 0 {
      UploadedRows(tables[TargetOf(tenant.config)], DisplayName(form.name, filename), form.date,
                   ObjectKey(tenant.id, filename), CodesList(form.codigos), k);
    }
  }

  // ---------------------------------------------------------------------
  // Delete

  /**
   * Delete asks storage to remove at most one object: the path of the
   * tenant's document `docId` when it exists and is not empty. Whether that
   * call raises changes neither the answer nor any table.
   */
  lemma DeleteStorageIsBestEffort(tenant: Tenant, docId: nat, objects: map<string, StoredObject>, tables: Databases,
                                  faults: Faults, storage: Outcome)
    requires AllWellFormed(tables)
    ensures var e := Delete(tenant, docId, objects, tables, faults);
            var e' := Delete(tenant, docId, objects, tables, faults.(storage := storage));
            && e.response == e'.response && e.tables == e'.tables
            && (e.objects == objects
                || exists d :: && TargetOf(tenant.config) in tables && d in tables[TargetOf(tenant.config)].documents
                               && d.id == docId && d.path.Some? && d.path.value != ""
                               && e.objects == objects - {d.path.value})
  {
    var target := TargetOf(tenant.config);
    if faults.connect.Pass? && target in tables {
      var t := tables[target];
      var w := DeleteOn(t, docId, objects, faults.statements, faults.storage);
      var w' := DeleteOn(t, docId, objects, faults.statements, storage);
      assert w.response == w'.response && w.tables == w'.tables;
      var key := StoredPath(t, docId);
      if w.objects != objects {
        var d :| d in t.documents && d.id == docId && d.path == key;
        assert w.objects == objects - {d.path.value};
      }
    }
  }

  /**
   * A successful delete answers `{ok: true}`; afterwards no document has id
   * `docId` and no code row refers to it, while every other document, every
   * other document's codes and every other database are unchanged.
   */
  lemma DeleteSuccess(tenant: Tenant, docId: nat, objects: map<string, StoredObject>, tables: Databases, faults: Faults)
    requires AllWellFormed(tables)
    requires faults.connect.Pass? && faults.statements.NoFault? && TargetOf(tenant.config) in tables
    ensures var target := TargetOf(tenant.config);
            var t := tables[target];
            var e := Delete(tenant, docId, objects, tables, faults);
            && e.response == Response(200, Deleted)
            && docId !in Ids(e.tables[target].documents)
            && CodesFor(e.tables[target].codes, docId) == []
            && (forall d :: d in e.tables[target].documents <==> d in t.documents && d.id != docId)
            && (forall other :: other != docId ==> CodesFor(e.tables[target].codes, other) == CodesFor(t.codes, other))
            && (forall k :: k in tables && k != target ==> e.tables[k] == tables[k])
  {
  }

  /**
   * Once the `SELECT` has run, delete removes the object of document
   * `docId` exactly when its path is neither null nor empty and the storage
   * call succeeds; the bucket is otherwise left as it was.
   */
  lemma DeleteRemovesStoredObject(tenant: Tenant, docId: nat, objects: map<string, StoredObject>, tables: Databases,
                                  faults: Faults, d: DocumentRow)
    requires AllWellFormed(tables)
    requires faults.connect.Pass? && !(faults.statements.FailsAt? && faults.statements.step == 0)
    requires TargetOf(tenant.config) in tables
    requires d in tables[TargetOf(tenant.config)].documents && d.id == docId
    ensures var e := Delete(tenant, docId, objects, tables, faults);
            e.objects == if d.path.Some? && d.path.value != "" && faults.storage.Pass? then objects - {d.path.value}
                         else objects
  {
    var t := tables[TargetOf(tenant.config)];
    assert StoredPath(t, docId) == if d.path.Some? && d.path.value != "" then d.path else None;
  }

  /**
   * When a statement of the delete raises, the answer is `{ok: false}` with
   * 500, and the statements before it have committed: a failing `SELECT`
   * changes nothing at all, a failing code delete leaves the tables as they
   * were, and a failing document delete leaves the document without codes.
   */
  lemma DeleteDatabaseFailure(tenant: Tenant, docId: nat, objects: map<string, StoredObject>, tables: Databases, faults: Faults)
    requires AllWellFormed(tables)
    requires faults.connect.Pass? && faults.statements.FailsAt? && faults.statements.step < 3
    requires TargetOf(tenant.config) in tables
    ensures var target := TargetOf(tenant.config);
            var t := tables[target];
            var e := Delete(tenant, docId, objects, tables, faults);
            var k := faults.statements.step;
            && e.response == Response(500, NotDeleted(faults.statements.message))
            && (k == 0 ==> e.objects == objects && e.tables == tables)
            && (k == 1 ==> e.tables == tables)
            && (k == 2 ==> e.tables[target].documents == t.documents && CodesFor(e.tables[target].codes, docId) == [])
  {
  }

  /** Deleting an id the tenant has no document for answers `{ok: true}` and changes nothing. */
  lemma DeleteAbsent(tenant: Tenant, docId: nat, objects: map<string, StoredObject>, tables: Databases, faults: Faults)
    requires AllWellFormed(tables) && AllReferential(tables)
    requires faults.connect.Pass? && faults.statements.NoFault? && TargetOf(tenant.config) in tables
    requires docId !in Ids(tables[TargetOf(tenant.config)].documents)
    ensures Delete(tenant, docId, objects, tables, faults) == Effect(Response(200, Deleted), objects, tables)
  {
    var target := TargetOf(tenant.config);
    var t := tables[target];
    forall c | c in t.codes ensures c.documentId != docId {
      assert c.documentId in Ids(t.documents);
    }
    WithoutCodesOfNone(t.codes, docId);
    WithoutDocumentAbsent(t.documents, docId);
    assert RemoveCodes(t, docId) == t;
    assert tables[target := t] == tables;
  }

  /** Deleting the same id twice has the effect of deleting it once. */
  lemma DeleteIdempotent(tenant: Tenant, docId: nat, objects: map<string, StoredObject>, tables: Databases, faults: Faults)
    requires AllWellFormed(tables)
    requires faults.connect.Pass? && faults.statements.NoFault?
    ensures var e := Delete(tenant, docId, objects, tables, faults);
            Delete(tenant, docId, e.objects, e.tables, faults) == e
  {
    var target := TargetOf(tenant.config);
    if target in tables {
      var w := DeleteOn(tables[target], docId, objects, NoFault, faults.storage);
      DeleteReachesDatabase(tenant, docId, objects, tables, faults);
      var tables' := tables[target := w.tables];
      DeleteReachesDatabase(tenant, docId, w.objects, tables', faults);
      DeleteOnTwice(tables[target], docId, objects, faults.storage);
      assert tables'[target := w.tables] == tables';
    }
  }

  /** Once connected, delete's effect is that of its steps on the tenant's tables. */
  lemma DeleteReachesDatabase(tenant: Tenant, docId: nat, objects: map<string, StoredObject>, tables: Databases, faults: Faults)
    requires AllWellFormed(tables)
    requires faults.connect.Pass? && TargetOf(tenant.config) in tables
    ensures var target := TargetOf(tenant.config);
            var w := DeleteOn(tables[target], docId, objects, faults.statements, faults.storage);
            Delete(tenant, docId, objects, tables, faults) == Effect(w.response, w.objects, tables[target := w.tables])
  {
  }

  /** On one tenant's tables, a second complete delete of the same id finds nothing left to remove. */
  lemma DeleteOnTwice(t: Tables, docId: nat, objects: map<string, StoredObject>, storage: Outcome)
    requires WellFormed(t)
    ensures var w := DeleteOn(t, docId, objects, NoFault, storage);
            DeleteOn(w.tables, docId, w.objects, NoFault, storage) == w
  {
    var w := DeleteOn(t, docId, objects, NoFault, storage);
    var t1 := w.tables;
    assert t1 == RemoveDocument(RemoveCodes(t, docId), docId);
    WithoutCodesOfNone(t1.codes, docId);
    WithoutDocumentAbsent(t1.documents, docId);
    assert RemoveCodes(t1, docId) == t1;
    assert StoredPath(t1, docId) == None;
  }

  // ---------------------------------------------------------------------
  // Isolation between tenants

  /**
   * An admitted request changes no other tenant's database, and, as long
   * as the paths in its own `documents` lie under its prefix, it adds,
   * replaces or removes only objects under `tenant_id/` and keeps its own
   * paths under that prefix.
   */
  lemma TenantStaysInItsPrefix(registry: Registry, request: Request, secureFilename: string -> string,
                               objects: map<string, StoredObject>, tables: Databases, faults: Faults)
    requires AllWellFormed(tables)
    requires ResolveTenant(registry, request.tenantHeader).Some?
    requires var tenant := ResolveTenant(registry, request.tenantHeader).value;
             TargetOf(tenant.config) in tables ==> PathsUnder(tables[TargetOf(tenant.config)], tenant.id)
    ensures var tenant := ResolveTenant(registry, request.tenantHeader).value;
            var target := TargetOf(tenant.config);
            var e := Handle(registry, request, secureFilename, objects, tables, faults);
            && (forall k :: k in tables && k != target ==> e.tables[k] == tables[k])
            && (target in tables ==> PathsUnder(e.tables[target], tenant.id))
            && SameOutside(e.objects, objects, tenant.id)
  {
    var tenant := ResolveTenant(registry, request.tenantHeader).value;
    match request.route
    case ListRoute =>
    case UploadRoute(file, form) =>
      UploadStaysInPrefix(tenant, file, form, secureFilename, objects, tables, faults);
    case DeleteRoute(docId) =>
      DeleteStaysInPrefix(tenant, docId, objects, tables, faults);
  }

  /** `m'` and `m` agree on every key outside the tenant's prefix. */
  ghost predicate SameOutside(m': map<string, StoredObject>, m: map<string, StoredObject>, tenantId: string) {
    forall key :: !InTenantPrefix(key, tenantId) ==> (key in m' <==> key in m) && (key in m ==> m'[key] == m[key])
  }

  lemma UploadStaysInPrefix(tenant: Tenant, file: Option<FilePart>, form: UploadForm, secureFilename: string -> string,
                            objects: map<string, StoredObject>, tables: Databases, faults: Faults)
    requires AllWellFormed(tables)
    requires TargetOf(tenant.config) in tables ==> PathsUnder(tables[TargetOf(tenant.config)], tenant.id)
    ensures var target := TargetOf(tenant.config);
            var e := Upload(tenant, file, form, secureFilename, objects, tables, faults);
            && (forall k :: k in tables && k != target ==> e.tables[k] == tables[k])
            && (target in tables ==> PathsUnder(e.tables[target], tenant.id))
            && SameOutside(e.objects, objects, tenant.id)
  {
    var target := TargetOf(tenant.config);
    var e := Upload(tenant, file, form, secureFilename, objects, tables, faults);
    UploadStorageBeforeDatabase(tenant, file, form, secureFilename, objects, tables, faults);
    if file.Some? && faults.storage.Pass? {
      var filename := secureFilename(file.value.filename);
      var key := ObjectKey(tenant.id, filename);
      assert InTenantPrefix(key, tenant.id);
      if faults.connect.Pass? && target in tables {
        var t := tables[target];
        var codes := UploadCodes(form.codigos);
        var n := Committed(faults.statements, |codes| + 1);
        var t' := UploadedTables(t, DisplayName(form.name, filename), form.date, key, codes, n);
        assert e.tables == tables[target := t'];
        forall d | d in t'.documents && d.path.Some?
          ensures InTenantPrefix(d.path.value, tenant.id)
        {
          assert d in t.documents || d.path == Some(key);
        }
      }
    }
  }

  lemma DeleteStaysInPrefix(tenant: Tenant, docId: nat, objects: map<string, StoredObject>, tables: Databases, faults: Faults)
    requires AllWellFormed(tables)
    requires TargetOf(tenant.config) in tables ==> PathsUnder(tables[TargetOf(tenant.config)], tenant.id)
    ensures var target := TargetOf(tenant.config);
            var e := Delete(tenant, docId, objects, tables, faults);
            && (forall k :: k in tables && k != target ==> e.tables[k] == tables[k])
            && (target in tables ==> PathsUnder(e.tables[target], tenant.id))
            && SameOutside(e.objects, objects, tenant.id)
  {
    var target := TargetOf(tenant.config);
    if faults.connect.Pass? && target in tables {
      DeleteOnInPrefix(tables[target], docId, objects, faults.statements, faults.storage, tenant.id);
    }
  }

  /** Delete's steps on one tenant's tables remove only a path those tables hold, and add no path. */
  lemma DeleteOnInPrefix(t: Tables, docId: nat, objects: map<string, StoredObject>, statements: StatementFault,
                         storage: Outcome, tenantId: string)
    requires WellFormed(t) && PathsUnder(t, tenantId)
    ensures var w := DeleteOn(t, docId, objects, statements, storage);
            PathsUnder(w.tables, tenantId) && SameOutside(w.objects, objects, tenantId)
  {
    var w := DeleteOn(t, docId, objects, statements, storage);
    forall d | d in w.tables.documents && d.path.Some?
      ensures InTenantPrefix(d.path.value, tenantId)
    {
      assert d in t.documents;
    }
    var key := StoredPath(t, docId);
    if key.Some? {
      var d :| d in t.documents && d.id == docId && d.path == key;
      assert InTenantPrefix(key.value, tenantId);
    }
  }
}
