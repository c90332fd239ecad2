/**
 * The three document routes (upload, list, delete) and the request
 * pipeline that runs the tenant gate before them. Each route is given as a
 * specification function of the request, the old state and the faults the
 * environment injects, and as a method that performs the route's steps one
 * by one on the object store and the database server and is proved to have
 * exactly that effect.
 */
module Documents {
  import opened Wrappers
  import opened Text
  import opened Codes
  import opened Http
  import opened Tenancy
  import opened ObjectStorage
  import opened Database

  /** The `file` part of a multipart upload. */
  datatype FilePart = FilePart(filename: string, contentType: Option<string>, body: seq<bv8>)

  /** The other form fields of an upload; an absent field is `None`. */
  datatype UploadForm = UploadForm(name: Option<string>, date: Option<string>, codigos: Option<string>)

  /**
   * What the environment does to one request: whether the object-storage
   * call raises, whether connecting to the database raises, and which SQL
   * statement (if any) raises.
   */
  datatype Faults = Faults(storage: Outcome, connect: Outcome, statements: StatementFault)

  type Databases = map<DbTarget, Tables>

  /** A route's whole effect: the response, the bucket's objects and every tenant database afterwards. */
  datatype Effect = Effect(response: Response, objects: map<string, StoredObject>, tables: Databases)

  /** The part of a route that runs on one open connection: its response, the bucket and that tenant's tables afterwards. */
  datatype TenantEffect = TenantEffect(response: Response, objects: map<string, StoredObject>, tables: Tables)

  ghost predicate AllWellFormed(tables: Databases) {
    forall k :: k in tables ==> WellFormed(tables[k])
  }

  ghost predicate AllReferential(tables: Databases) {
    forall k :: k in tables ==> Referential(tables[k])
  }

  const MissingFileMessage: string := "No se envió el archivo"
  const StorageErrorPrefix: string := "Error al subir a R2: "

  /** The object key of an upload: the tenant id, a slash, the sanitised filename. */
  function ObjectKey(tenantId: string, filename: string): (key: string)
    ensures |key| == |tenantId| + 1 + |filename|
    ensures key[..|tenantId| + 1] == tenantId + "/"
    ensures key[|tenantId| + 1..] == filename
  {
    tenantId + "/" + filename
  }

  /** `request.form.get("name") or filename`: the form's name unless it is missing or empty. */
  function DisplayName(name: Option<string>, filename: string): (display: string)
    ensures name.Some? && name.value != "" ==> display == name.value
    ensures name.None? || name.value == "" ==> display == filename
    ensures display == "" ==> filename == ""
  {
    if name.Some? && name.value != "" then name.value else filename
  }

  /**
   * `if codigos: for code in _codes_list(codigos)`: the codes that get a
   * row. The guard is redundant: `_codes_list` of a missing or empty field
   * is already empty.
   */
  function UploadCodes(codigos: Option<string>): (codes: seq<string>)
    ensures codes == CodesList(codigos)
  {
    if codigos.Some? && codigos.value != "" then CodesList(codigos) else []
  }

  // ---------------------------------------------------------------------
  // Upload

  /**
   * The tenant's tables once the first `n` of upload's statements have
   * committed: statement 0 inserts the document, statement `k` inserts the
   * code `codes[k - 1]`.
   */
  function UploadedTables(t: Tables, name: string, date: Option<string>, path: string, codes: seq<string>, n: nat): (r: Tables)
    requires WellFormed(t)
    requires n <= |codes| + 1
    ensures WellFormed(r)
    ensures Referential(t) ==> Referential(r)
    ensures n == 0 ==> r == t
    ensures n > 0 ==> r.documents == t.documents + [DocumentRow(t.autoIncrement, name, date, Some(path))]
  {
    if n == 0 then t
    else
      var t1 := AddDocument(t, name, date, Some(path));
      var rows := CodeRows(t.autoIncrement, codes[..n - 1]);
      assert forall c :: c in rows ==> c.documentId in Ids(t1.documents);
      t1.(codes := t1.codes + rows)
  }

  /** The `for` loop's step: one more committed statement appends one more code row. */
  lemma UploadedTablesStep(t: Tables, name: string, date: Option<string>, path: string, codes: seq<string>, i: nat)
    requires WellFormed(t)
    requires i < |codes|
    ensures UploadedTables(t, name, date, path, codes, i + 2)
         == AddCode(UploadedTables(t, name, date, path, codes, i + 1), t.autoIncrement, codes[i])
  {
    assert codes[..i + 1] == codes[..i] + [codes[i]];
    assert CodeRows(t.autoIncrement, codes[..i + 1]) == CodeRows(t.autoIncrement, codes[..i]) + [CodeRow(t.autoIncrement, codes[i])];
  }

  /** `upload_document`, as a function of the request, the old state and the faults. */
  function Upload(tenant: Tenant, file: Option<FilePart>, form: UploadForm, secureFilename: string -> string,
                  objects: map<string, StoredObject>, tables: Databases, faults: Faults): (e: Effect)
    requires AllWellFormed(tables)
    ensures e.tables.Keys == tables.Keys && AllWellFormed(e.tables)
    ensures AllReferential(tables) ==> AllReferential(e.tables)
  {
    match file
    case None => Effect(Response(400, ErrorBody(MissingFileMessage)), objects, tables)
    case Some(f) =>
      var filename := secureFilename(f.filename);
      var key := ObjectKey(tenant.id, filename);
      if faults.storage.Fail? then
        Effect(Response(500, ErrorBody(StorageErrorPrefix + faults.storage.message)), objects, tables)
      else
        var stored := objects[key := StoredObject(f.body, f.contentType)];
        var target := TargetOf(tenant.config);
        if faults.connect.Fail? || target !in tables then
          Effect(Response(500, InternalServerError), stored, tables)
        else
          var w := UploadOn(tables[target], DisplayName(form.name, filename), form.date, key,
                            UploadCodes(form.codigos), faults.statements);
          Effect(w.0, stored, tables[target := w.1])
  }

  /** Upload's statements on an open connection to a tenant whose tables are `t`: the response and the new tables. */
  function UploadOn(t: Tables, name: string, date: Option<string>, key: string, codes: seq<string>,
                    statements: StatementFault): (r: (Response, Tables))
    requires WellFormed(t)
    ensures r.0.status == 200 <==> !(statements.FailsAt? && statements.step <= |codes|)
    ensures r.0.status == 200 ==> r.0.body == Uploaded(t.autoIncrement) && t.autoIncrement !in Ids(t.documents)
    ensures r.0.status != 200 ==> r.0 == Response(500, ErrorBody(statements.message))
    ensures statements.FailsAt? && statements.step == 0 ==> r.1 == t
    ensures WellFormed(r.1) && (Referential(t) ==> Referential(r.1))
  {
    var n := Committed(statements, |codes| + 1);
    var response := if n < |codes| + 1 then Response(500, ErrorBody(statements.message))
                    else Response(200, Uploaded(t.autoIncrement));
    (response, UploadedTables(t, name, date, key, codes, n))
  }

  /** The steps of `upload_document`, run against the object store and the database server. */
  method UploadDocument(g: RequestGlobals, file: Option<FilePart>, form: UploadForm, secureFilename: string -> string,
                        store: ObjectStore, server: DatabaseServer, faults: Faults) returns (response: Response)
    requires g.Current().Some?
    requires server.Valid()
    modifies store, server
    ensures server.Valid()
    ensures server.openConnections == old(server.openConnections)
    ensures Effect(response, store.objects, server.tables)
         == Upload(g.Current().value, file, form, secureFilename, old(store.objects), old(server.tables), faults)
  {
    if file.None? {
      return Response(400, ErrorBody(MissingFileMessage));
    }
    var f := file.value;
    var tenant := g.Current().value;
    var filename := secureFilename(f.filename);
    var key := ObjectKey(tenant.id, filename);
    var put := store.UploadFileObj(key, StoredObject(f.body, f.contentType), faults.storage);
    if put.Fail? {
      return Response(500, ErrorBody(StorageErrorPrefix + put.message));
    }

    var name := DisplayName(form.name, filename);
    var conn := server.Connect(tenant.config, faults.connect);
    if conn == null {
      return Response(500, InternalServerError);
    }
    response := InsertRows(conn, name, form.date, key, UploadCodes(form.codigos), faults.statements);
  }

  /** Upload's `INSERT`s on an open connection, then `conn.close()`. */
  method InsertRows(conn: Connection, name: string, date: Option<string>, key: string, codes: seq<string>,
                    statements: StatementFault) returns (response: Response)
    requires conn.Ready() && conn.server.openConnections > 0
    modifies conn, conn.server
    ensures conn.server.Valid() && !conn.open
    ensures conn.server.openConnections == old(conn.server.openConnections) - 1
    ensures var w := UploadOn(old(conn.server.tables[conn.target]), name, date, key, codes, statements);
            response == w.0 && conn.server.tables == old(conn.server.tables)[conn.target := w.1]
  {
    var t := conn.server.tables[conn.target];
    var inserted := conn.InsertDocument(name, date, Some(key), StepOutcome(statements, 0));
    if inserted.Failure? {
      conn.Close();
      return Response(500, ErrorBody(inserted.message));
    }
    var r := InsertCodeRows(conn, t, name, date, key, codes, statements);
    conn.Close();
    response := if r.Fail? then Response(500, ErrorBody(r.message)) else Response(200, Uploaded(inserted.value));
  }

  /**
   * The loop over the codes: one `INSERT INTO codes` per code, in order,
   * stopping at the first that raises. Before it the connection's tables are
   * `t` plus the new document row.
   */
  method InsertCodeRows(conn: Connection, t: Tables, name: string, date: Option<string>, key: string, codes: seq<string>,
                        statements: StatementFault) returns (r: Outcome)
    requires WellFormed(t) && conn.Ready()
    requires !(statements.FailsAt? && statements.step == 0)
    requires conn.server.tables[conn.target] == UploadedTables(t, name, date, key, codes, 1)
    modifies conn.server`tables
    ensures conn.Ready()
    ensures var n := Committed(statements, |codes| + 1);
            && r == (if n < |codes| + 1 then Fail(statements.message) else Pass)
            && conn.server.tables == old(conn.server.tables)[conn.target := UploadedTables(t, name, date, key, codes, n)]
  {
    var server := conn.server;
    var i := 0;
    while i < |codes|
      invariant 0 <= i <= |codes|
      invariant conn.Ready()
      invariant statements.FailsAt? ==> statements.step > i
      invariant server.tables == old(server.tables)[conn.target := UploadedTables(t, name, date, key, codes, i + 1)]
    {
      UploadedTablesStep(t, name, date, key, codes, i);
      r := conn.InsertCode(t.autoIncrement, codes[i], StepOutcome(statements, i + 1));
      if r.Fail? {
        return;
      }
      i := i + 1;
    }
    r := Pass;
  }

  // ---------------------------------------------------------------------
  // List

  /** `listar_documentos`, as a function of the tenant's state and the faults. */
  function List(tenant: Tenant, tables: Databases, faults: Faults): (r: Response)
    requires AllWellFormed(tables)
    ensures r.status == 200 || r.status == 500
    ensures r.status == 200 <==> faults.connect.Pass? && TargetOf(tenant.config) in tables
                                 && !(faults.statements.FailsAt? && faults.statements.step == 0)
    ensures r.status == 200 ==> r.body == Listing(ListQuery(tables[TargetOf(tenant.config)]))
    ensures faults.connect.Fail? || TargetOf(tenant.config) !in tables ==> r == Response(500, InternalServerError)
    ensures faults.connect.Pass? && TargetOf(tenant.config) in tables && r.status == 500
            ==> r.body == ErrorBody(faults.statements.message)
  {
    var target := TargetOf(tenant.config);
    if faults.connect.Fail? || target !in tables then Response(500, InternalServerError)
    else
      match StepOutcome(faults.statements, 0)
      case Fail(message) => Response(500, ErrorBody(message))
      case Pass => Response(200, Listing(ListQuery(tables[target])))
  }

  /** The steps of `listar_documentos`: one query, then the connection is closed. */
  method ListDocuments(g: RequestGlobals, server: DatabaseServer, faults: Faults) returns (response: Response)
    requires g.Current().Some?
    requires server.Valid()
    modifies server
    ensures server.Valid()
    ensures server.tables == old(server.tables)
    ensures server.openConnections == old(server.openConnections)
    ensures response == List(g.Current().value, old(server.tables), faults)
  {
    var conn := server.Connect(g.Current().value.config, faults.connect);
    if conn == null {
      return Response(500, InternalServerError);
    }
    var rows := conn.SelectListing(StepOutcome(faults.statements, 0));
    conn.Close();
    match rows
    case Failure(message) => response := Response(500, ErrorBody(message));
    case Success(listing) => response := Response(200, Listing(listing));
  }

  // ---------------------------------------------------------------------
  // Delete

  /**
   * The tenant's tables once the first `n` of delete's statements have
   * committed: 0 is the `SELECT`, 1 deletes the code rows, 2 the document row.
   */
  function DeletedTables(t: Tables, id: int, n: nat): (r: Tables)
    requires WellFormed(t)
    ensures WellFormed(r)
    ensures Referential(t) ==> Referential(r)
  {
    if n <= 1 then t
    else if n == 2 then RemoveCodes(t, id)
    else
      var r := RemoveDocument(RemoveCodes(t, id), id);
      assert Referential(t) ==> Referential(r) by {
        if Referential(t) {
          forall c | c in r.codes ensures c.documentId in Ids(r.documents) {
            assert c in WithoutCodesOf(t.codes, id);
          }
        }
      }
      r
  }

  /** The key delete hands to storage: the row's `path` when the row exists and its path is neither null nor empty. */
  function StoredPath(t: Tables, id: int): (key: Option<string>)
    ensures key.Some? ==> key.value != "" && exists d :: d in t.documents && d.id == id && d.path == key
    ensures id !in Ids(t.documents) ==> key == None
    ensures DistinctIds(t.documents) ==>
              forall d :: d in t.documents && d.id == id ==>
                key == if d.path.Some? && d.path.value != "" then d.path else None
  {
    PathKey(LookupPath(t.documents, id))
  }

  /** `if row and row.get("path")`: the fetched row's path when there is a row and its path is neither null nor empty. */
  function PathKey(row: Option<Option<string>>): (key: Option<string>)
    ensures key.Some? <==> row.Some? && row.value.Some? && row.value.value != ""
    ensures key.Some? ==> key.value == row.value.value
  {
    match row
    case Some(Some(p)) => if p != "" then Some(p) else None
    case _ => None
  }

  /** The bucket after delete's storage call: `key` is removed unless there is no key or the call raises. */
  function Unstored(objects: map<string, StoredObject>, key: Option<string>, storage: Outcome): (r: map<string, StoredObject>)
    ensures r.Keys <= objects.Keys
    ensures forall k :: k in r ==> r[k] == objects[k]
    ensures key.Some? && storage.Pass? ==> key.value !in r && r.Keys == objects.Keys - {key.value}
    ensures key.None? || storage.Fail? ==> r == objects
  {
    if key.Some? && storage.Pass? then objects - {key.value} else objects
  }

  /** `eliminar_documento`, as a function of the document id, the old state and the faults. */
  function Delete(tenant: Tenant, docId: nat, objects: map<string, StoredObject>, tables: Databases, faults: Faults): (e: Effect)
    requires AllWellFormed(tables)
    ensures e.tables.Keys == tables.Keys && AllWellFormed(e.tables)
    ensures AllReferential(tables) ==> AllReferential(e.tables)
  {
    var target := TargetOf(tenant.config);
    if faults.connect.Fail? || target !in tables then
      Effect(Response(500, InternalServerError), objects, tables)
    else
      var w := DeleteOn(tables[target], docId, objects, faults.statements, faults.storage);
      Effect(w.response, w.objects, tables[target := w.tables])
  }

  /** Delete's steps on an open connection to a tenant whose tables are `t`. */
  function DeleteOn(t: Tables, docId: nat, objects: map<string, StoredObject>, statements: StatementFault, storage: Outcome): (w: TenantEffect)
    requires WellFormed(t)
    ensures w.response.status == 200 <==> !(statements.FailsAt? && statements.step < 3)
    ensures w.response.status == 200 ==> w.response.body == Deleted
    ensures w.response.status != 200 ==> w.response == Response(500, NotDeleted(statements.message))
    ensures statements.FailsAt? && statements.step == 0 ==> w.objects == objects && w.tables == t
    ensures w.objects == objects || (StoredPath(t, docId).Some? && storage.Pass?
                                     && w.objects == objects - {StoredPath(t, docId).value})
    ensures WellFormed(w.tables) && (Referential(t) ==> Referential(w.tables))
  {
    var n := Committed(statements, 3);
    if n == 0 then
      TenantEffect(Response(500, NotDeleted(statements.message)), objects, t)
    else
      var response := if n < 3 then Response(500, NotDeleted(statements.message)) else Response(200, Deleted);
      TenantEffect(response, Unstored(objects, StoredPath(t, docId), storage), DeletedTables(t, docId, n))
  }

  /** The steps of `eliminar_documento`, run against the object store and the database server. */
  method DeleteDocument(g: RequestGlobals, docId: nat, store: ObjectStore, server: DatabaseServer, faults: Faults)
    returns (response: Response)
    requires g.Current().Some?
    requires server.Valid()
    modifies store, server
    ensures server.Valid()
    ensures server.openConnections == old(server.openConnections)
    ensures Effect(response, store.objects, server.tables)
         == Delete(g.Current().value, docId, old(store.objects), old(server.tables), faults)
  {
    var conn := server.Connect(g.Current().value.config, faults.connect);
    if conn == null {
      return Response(500, InternalServerError);
    }
    response := RemoveRows(conn, docId, store, faults.statements, faults.storage);
  }

  /** Delete's `SELECT`, storage call and `DELETE`s on an open connection, then `conn.close()`. */
  method RemoveRows(conn: Connection, docId: nat, store: ObjectStore, statements: StatementFault, storage: Outcome)
    returns (response: Response)
    requires conn.Ready() && conn.server.openConnections > 0
    modifies conn, conn.server, store
    ensures conn.server.Valid() && !conn.open
    ensures conn.server.openConnections == old(conn.server.openConnections) - 1
    ensures var w := DeleteOn(old(conn.server.tables[conn.target]), docId, old(store.objects), statements, storage);
            response == w.response && store.objects == w.objects
            && conn.server.tables == old(conn.server.tables)[conn.target := w.tables]
  {
    var t := conn.server.tables[conn.target];
    var row := conn.SelectPath(docId, StepOutcome(statements, 0));
    if row.Failure? {
      conn.Close();
      return Response(500, NotDeleted(row.message));
    }
    RemoveStoredObject(store, row.value, storage);
    var r := DeleteRows(conn, t, docId, statements);
    conn.Close();
    response := if r.Fail? then Response(500, NotDeleted(r.message)) else Response(200, Deleted);
  }

  /** The guarded storage call of delete; a storage failure is only logged, so its outcome is dropped. */
  method RemoveStoredObject(store: ObjectStore, row: Option<Option<string>>, storage: Outcome)
    modifies store
    ensures store.objects == Unstored(old(store.objects), PathKey(row), storage)
  {
    if row.Some? && row.value.Some? && row.value.value != "" {
      var _ := store.DeleteObject(row.value.value, storage);
    }
  }

  /** Delete's two `DELETE`s, codes first, stopping at the first that raises. */
  method DeleteRows(conn: Connection, t: Tables, docId: nat, statements: StatementFault) returns (r: Outcome)
    requires WellFormed(t) && conn.Ready() && conn.server.tables[conn.target] == t
    requires !(statements.FailsAt? && statements.step == 0)
    modifies conn.server`tables
    ensures conn.Ready()
    ensures var n := Committed(statements, 3);
            && r == (if n < 3 then Fail(statements.message) else Pass)
            && conn.server.tables == old(conn.server.tables)[conn.target := DeletedTables(t, docId, n)]
  {
    r := conn.DeleteCodes(docId, StepOutcome(statements, 1));
    if r.Fail? {
      return;
    }
    r := conn.DeleteDocument(docId, StepOutcome(statements, 2));
  }

  // ---------------------------------------------------------------------
  // The request pipeline

  datatype Route =
    | UploadRoute(file: Option<FilePart>, form: UploadForm)   // POST /upload
    | ListRoute                                               // GET /
    | DeleteRoute(docId: nat)                                 // DELETE /<int:doc_id>

  /** A request to the blueprint: the `X-Tenant-ID` header, if sent, and the route it matched. */
  datatype Request = Request(tenantHeader: Option<string>, route: Route)

  /** The blueprint's answer: the tenant gate first, then the matched route for the admitted tenant. */
  function Handle(registry: Registry, request: Request, secureFilename: string -> string,
                  objects: map<string, StoredObject>, tables: Databases, faults: Faults): (e: Effect)
    requires AllWellFormed(tables)
    ensures e.tables.Keys == tables.Keys && AllWellFormed(e.tables)
    ensures AllReferential(tables) ==> AllReferential(e.tables)
  {
    match ResolveTenant(registry, request.tenantHeader)
    case None => Effect(Forbidden, objects, tables)
    case Some(tenant) =>
      match request.route
      case UploadRoute(file, form) => Upload(tenant, file, form, secureFilename, objects, tables, faults)
      case ListRoute => Effect(List(tenant, tables, faults), objects, tables)
      case DeleteRoute(docId) => Delete(tenant, docId, objects, tables, faults)
  }

  /** One request: `identify_tenant` on a fresh `g`, then the route's handler unless the gate answered. */
  method HandleRequest(registry: Registry, request: Request, secureFilename: string -> string,
                       store: ObjectStore, server: DatabaseServer, faults: Faults) returns (response: Response)
    requires server.Valid()
    modifies store, server
    ensures server.Valid()
    ensures server.openConnections == old(server.openConnections)
    ensures Effect(response, store.objects, server.tables)
         == Handle(registry, request, secureFilename, old(store.objects), old(server.tables), faults)
  {
    var g := new RequestGlobals();
    var rejection := g.IdentifyTenant(registry, request.tenantHeader);
    if rejection.Some? {
      return rejection.value;
    }
    match request.route
    case UploadRoute(file, form) =>
      response := UploadDocument(g, file, form, secureFilename, store, server, faults);
    case ListRoute =>
      response := ListDocuments(g, server, faults);
    case DeleteRoute(docId) =>
      response := DeleteDocument(g, docId, store, server, faults);
  }
}
