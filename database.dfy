/**
 * One tenant's relational database as a value (the `documents` and `codes`
 * tables and the AUTO_INCREMENT counter of `documents`), the meaning of each
 * SQL statement the routes run on it, the listing query, and the database
 * server that the routes connect to. Every statement commits on its own
 * (`autocommit=True`): there is no transaction to roll back.
 */
module Database {
  import opened Wrappers
  import opened Text
  import opened Collation
  import opened Http
  import opened Tenancy
  import opened Sequences

  datatype DocumentRow = DocumentRow(id: int, name: string, date: Option<string>, path: Option<string>)

  datatype CodeRow = CodeRow(documentId: int, code: string)

  datatype Tables = Tables(documents: seq<DocumentRow>, codes: seq<CodeRow>, autoIncrement: int)

  function Ids(docs: seq<DocumentRow>): set<int> {
    set d | d in docs :: d.id
  }

  predicate DistinctIds(docs: seq<DocumentRow>) {
    forall i, j :: 0 <= i < j < |docs| ==> docs[i].id != docs[j].id
  }

  /** A non-empty table is its first row followed by the rest, in every view the model takes of it. */
  lemma Uncons(docs: seq<DocumentRow>)
    requires docs != []
    ensures docs == [docs[0]] + docs[1..]
    ensures multiset(docs) == multiset{docs[0]} + multiset(docs[1..])
    ensures Ids(docs) == {docs[0].id} + Ids(docs[1..])
    ensures DistinctIds(docs) ==> DistinctIds(docs[1..]) && docs[0].id !in Ids(docs[1..])
  {
    assert docs == [docs[0]] + docs[1..];
    if DistinctIds(docs) {
      forall e | e in docs[1..] ensures e.id != docs[0].id {
        var j :| 0 <= j < |docs[1..]| && docs[1..][j] == e;
        assert docs[j + 1] == e;
      }
    }
  }

  /** What the database engine keeps true of `documents`: ids are distinct, positive and below the counter. */
  ghost predicate WellFormed(t: Tables) {
    && t.autoIncrement > 0
    && DistinctIds(t.documents)
    && (forall d :: d in t.documents ==> 0 < d.id < t.autoIncrement)
  }

  /** Every code row belongs to a stored document. */
  ghost predicate Referential(t: Tables) {
    forall c :: c in t.codes ==> c.documentId in Ids(t.documents)
  }

  // ---------------------------------------------------------------------
  // Reading the tables

  /** The codes of document `id`, in row order, duplicates included. */
  function CodesFor(rows: seq<CodeRow>, id: int): (codes: seq<string>)
    ensures |codes| <= |rows|
    ensures forall c :: c in codes <==> CodeRow(id, c) in rows
  {
    if rows == [] then []
    else
      assert rows == [rows[0]] + rows[1..];
      (if rows[0].documentId == id then [rows[0].code] else []) + CodesFor(rows[1..], id)
  }

  /** Duplicates are kept: each code occurs as often as there are rows of the document holding it. */
  lemma {:induction false} CodesForCounts(rows: seq<CodeRow>, id: int, c: string)
    ensures multiset(CodesFor(rows, id))[c] == multiset(rows)[CodeRow(id, c)]
  {
    if rows != [] {
      CodesForCounts(rows[1..], id, c);
      MultisetCons(rows);
    }
  }

  lemma {:induction false} CodesForAppend(a: seq<CodeRow>, b: seq<CodeRow>, id: int)
    ensures CodesFor(a + b, id) == CodesFor(a, id) + CodesFor(b, id)
  {
    if a == [] {
      assert a + b == b;
    } else {
      assert (a + b)[1..] == a[1..] + b;
      CodesForAppend(a[1..], b, id);
    }
  }

  /** `SELECT path FROM documents WHERE id=%s` then `fetchone()`: no row, or the row's `path` column. */
  function LookupPath(docs: seq<DocumentRow>, id: int): (r: Option<Option<string>>)
    ensures r.None? <==> id !in Ids(docs)
    ensures r.Some? ==> exists d :: d in docs && d.id == id && d.path == r.value
    ensures DistinctIds(docs) ==> forall d :: d in docs && d.id == id ==> r == Some(d.path)
  {
    if docs == [] then None
    else
      Uncons(docs);
      if docs[0].id == id then
        HeadOwnsId(docs);
        Some(docs[0].path)
      else
        assert forall d :: d in docs && d.id == id ==> d in docs[1..];
        LookupPath(docs[1..], id)
  }

  /** With distinct ids, the first row is the only row carrying its id. */
  lemma HeadOwnsId(docs: seq<DocumentRow>)
    requires docs != []
    ensures DistinctIds(docs) ==> forall d :: d in docs && d.id == docs[0].id ==> d == docs[0]
  {
    if DistinctIds(docs) {
      forall d | d in docs && d != docs[0] ensures d.id != docs[0].id {
        var k :| 0 <= k < |docs| && docs[k] == d;
        assert 0 < k;
      }
    }
  }

  // ---------------------------------------------------------------------
  // The statements that change the tables

  /** `INSERT INTO documents (name, date, path)`: a new row whose id is the counter, which then moves on. */
  function AddDocument(t: Tables, name: string, date: Option<string>, path: Option<string>): (r: Tables)
    requires WellFormed(t)
    ensures WellFormed(r)
    ensures t.autoIncrement !in Ids(t.documents)
    ensures Ids(r.documents) == Ids(t.documents) + {t.autoIncrement}
    ensures Referential(t) ==> Referential(r)
  {
    t.(documents := t.documents + [DocumentRow(t.autoIncrement, name, date, path)],
       autoIncrement := t.autoIncrement + 1)
  }

  /** `INSERT INTO codes (document_id, code)`. */
  function AddCode(t: Tables, id: int, code: string): (r: Tables)
    ensures r.documents == t.documents && r.autoIncrement == t.autoIncrement
    ensures CodesFor(r.codes, id) == CodesFor(t.codes, id) + [code]
    ensures forall other :: other != id ==> CodesFor(r.codes, other) == CodesFor(t.codes, other)
  {
    AddCodeRows(t.codes, id, code);
    t.(codes := t.codes + [CodeRow(id, code)])
  }

  lemma AddCodeRows(rows: seq<CodeRow>, id: int, code: string)
    ensures CodesFor(rows + [CodeRow(id, code)], id) == CodesFor(rows, id) + [code]
    ensures forall other :: other != id ==> CodesFor(rows + [CodeRow(id, code)], other) == CodesFor(rows, other)
  {
    CodesForAppend(rows, [CodeRow(id, code)], id);
    forall other | other != id
      ensures CodesFor(rows + [CodeRow(id, code)], other) == CodesFor(rows, other)
    {
      CodesForAppend(rows, [CodeRow(id, code)], other);
    }
  }

  /** The code rows that one `INSERT INTO codes` per element of `codes` appends. */
  function CodeRows(id: int, codes: seq<string>): (rows: seq<CodeRow>)
    ensures |rows| == |codes|
    ensures forall k :: 0 <= k < |codes| ==> rows[k] == CodeRow(id, codes[k])
  {
    seq(|codes|, k requires 0 <= k < |codes| => CodeRow(id, codes[k]))
  }

  /** The code rows of one document leave the rows of every other document alone. */
  lemma {:induction false} CodesForCodeRows(id: int, codes: seq<string>, other: int)
    ensures CodesFor(CodeRows(id, codes), other) == if other == id then codes else []
  {
    if codes != [] {
      CodesForCodeRows(id, codes[1..], other);
      assert CodeRows(id, codes)[1..] == CodeRows(id, codes[1..]);
    }
  }

  /** `DELETE FROM codes WHERE document_id=%s`, on the rows: the others stay, in order. */
  function WithoutCodesOf(rows: seq<CodeRow>, id: int): (r: seq<CodeRow>)
    ensures forall c :: c in r ==> c in rows && c.documentId != id
    ensures CodesFor(r, id) == []
    ensures forall other :: other != id ==> CodesFor(r, other) == CodesFor(rows, other)
  {
    if rows == [] then []
    else
      var rest := WithoutCodesOf(rows[1..], id);
      if rows[0].documentId == id then rest
      else
        assert ([rows[0]] + rest)[1..] == rest;
        [rows[0]] + rest
  }

  /** `DELETE FROM documents WHERE id=%s`, on the rows: the others stay, in order. */
  function WithoutDocument(docs: seq<DocumentRow>, id: int): (r: seq<DocumentRow>)
    ensures forall d :: d in r <==> d in docs && d.id != id
    ensures Ids(r) == Ids(docs) - {id}
    ensures DistinctIds(docs) ==> DistinctIds(r)
  {
    if docs == [] then []
    else
      Uncons(docs);
      var rest := WithoutDocument(docs[1..], id);
      if docs[0].id == id then rest
      else
        assert DistinctIds(docs) ==> docs[0].id !in Ids(rest);
        PrependDistinct(docs[0], rest);
        [docs[0]] + rest
  }

  /** A row whose id none of `s` has can go in front of `s` keeping ids distinct. */
  lemma PrependDistinct(x: DocumentRow, s: seq<DocumentRow>)
    ensures Ids([x] + s) == {x.id} + Ids(s)
    ensures DistinctIds(s) && x.id !in Ids(s) ==> DistinctIds([x] + s)
  {
    var r := [x] + s;
    assert forall e :: e in r <==> e == x || e in s;
    if DistinctIds(s) && x.id !in Ids(s) {
      forall i, j | 0 <= i < j < |r| ensures r[i].id != r[j].id {
        assert r[j] == s[j - 1];
        if i > 0 {
          assert r[i] == s[i - 1];
        } else {
          assert s[j - 1] in s;
        }
      }
    }
  }

  /** Deleting the codes of a document that has none changes nothing. */
  lemma {:induction false} WithoutCodesOfNone(rows: seq<CodeRow>, id: int)
    requires forall c :: c in rows ==> c.documentId != id
    ensures WithoutCodesOf(rows, id) == rows
  {
    if rows != [] {
      WithoutCodesOfNone(rows[1..], id);
      assert rows == [rows[0]] + rows[1..];
    }
  }

  /** Deleting an id no document has changes nothing. */
  lemma {:induction false} WithoutDocumentAbsent(docs: seq<DocumentRow>, id: int)
    requires id !in Ids(docs)
    ensures WithoutDocument(docs, id) == docs
  {
    if docs != [] {
      assert docs == [docs[0]] + docs[1..];
      assert Ids(docs[1..]) <= Ids(docs);
      WithoutDocumentAbsent(docs[1..], id);
    }
  }

  function RemoveCodes(t: Tables, id: int): (r: Tables)
    ensures r.documents == t.documents && r.autoIncrement == t.autoIncrement
    ensures CodesFor(r.codes, id) == []
    ensures forall other :: other != id ==> CodesFor(r.codes, other) == CodesFor(t.codes, other)
    ensures Referential(t) ==> Referential(r)
  {
    t.(codes := WithoutCodesOf(t.codes, id))
  }

  function RemoveDocument(t: Tables, id: int): (r: Tables)
    ensures r.codes == t.codes && r.autoIncrement == t.autoIncrement
    ensures Ids(r.documents) == Ids(t.documents) - {id}
    ensures forall d :: d in r.documents <==> d in t.documents && d.id != id
    ensures WellFormed(t) ==> WellFormed(r)
  {
    t.(documents := WithoutDocument(t.documents, id))
  }

  // ---------------------------------------------------------------------
  // The listing query

  /** `GROUP_CONCAT(c.code ORDER BY c.code)`: null without codes, else the codes in ascending order joined by commas. */
  function Aggregate(codes: seq<string>): (r: Option<string>)
    ensures r.None? <==> codes == []
  {
    if codes == [] then None else Some(Join(Sort(codes), ','))
  }

  /** The aggregate depends only on which codes a document has, not on the order of its rows. */
  lemma AggregateIgnoresRowOrder(a: seq<string>, b: seq<string>)
    requires multiset(a) == multiset(b)
    ensures Aggregate(a) == Aggregate(b)
  {
    SortPermutationInvariant(a, b);
    assert |a| == |multiset(a)| == |multiset(b)| == |b|;
  }

  /** Codes free of commas can be read back from the aggregate: splitting it gives them in ascending order. */
  lemma AggregateSplits(codes: seq<string>)
    requires codes != []
    requires forall c :: c in codes ==> ',' !in c
    ensures Split(Aggregate(codes).value, ',') == Sort(codes)
  {
    var sorted := Sort(codes);
    assert forall c :: c in sorted ==> c in multiset(codes);
    assert codes[0] in multiset(sorted);
    SplitJoin(sorted, ',');
  }

  /** The listing row of one document. */
  function RowFor(t: Tables, d: DocumentRow): ListRow {
    ListRow(d.id, d.name, d.date, d.path, Aggregate(CodesFor(t.codes, d.id)))
  }

  predicate NewestFirst(docs: seq<DocumentRow>) {
    forall i, j :: 0 <= i < j < |docs| ==> docs[i].id > docs[j].id
  }

  function InsertById(d: DocumentRow, docs: seq<DocumentRow>): (r: seq<DocumentRow>)
    requires NewestFirst(docs)
    requires d.id !in Ids(docs)
    ensures NewestFirst(r)
    ensures multiset(r) == multiset(docs) + multiset{d}
    ensures |r| == |docs| + 1 && (r[0] == d || (docs != [] && r[0] == docs[0]))
  {
    if docs == [] then [d]
    else if d.id > docs[0].id then
      PrependNewest(d, docs);
      [d] + docs
    else
      Uncons(docs);
      NewestFirstTail(docs);
      var rest := InsertById(d, docs[1..]);
      InsertBehind(d, docs, rest);
      [docs[0]] + rest
  }

  /** The step of `InsertById` that keeps the first row in front of the insertion into the rest. */
  lemma InsertBehind(d: DocumentRow, docs: seq<DocumentRow>, rest: seq<DocumentRow>)
    requires NewestFirst(docs) && docs != [] && d.id < docs[0].id
    requires NewestFirst(rest) && multiset(rest) == multiset(docs[1..]) + multiset{d}
    requires |rest| == |docs| && (rest[0] == d || (|docs| > 1 && rest[0] == docs[1]))
    ensures NewestFirst([docs[0]] + rest)
    ensures multiset([docs[0]] + rest) == multiset(docs) + multiset{d}
  {
    Uncons(docs);
    PrependNewest(docs[0], rest);
  }

  /** Dropping the first row of a newest-first sequence keeps it newest first, every remaining row being older. */
  lemma NewestFirstTail(docs: seq<DocumentRow>)
    requires NewestFirst(docs) && docs != []
    ensures NewestFirst(docs[1..])
    ensures forall e :: e in docs[1..] ==> e.id < docs[0].id
  {
    forall e | e in docs[1..] ensures e.id < docs[0].id {
      var j :| 0 <= j < |docs[1..]| && docs[1..][j] == e;
      assert docs[j + 1] == e;
    }
  }

  /** A row newer than the first of a newest-first sequence can go in front of it. */
  lemma PrependNewest(x: DocumentRow, s: seq<DocumentRow>)
    requires NewestFirst(s)
    requires s == [] || x.id > s[0].id
    ensures NewestFirst([x] + s)
  {
    var r := [x] + s;
    forall i, j | 0 <= i < j < |r| ensures r[i].id > r[j].id {
      if i == 0 {
        assert r[j] == s[j - 1];
        assert j - 1 == 0 || s[0].id > s[j - 1].id;
      } else {
        assert r[i] == s[i - 1] && r[j] == s[j - 1];
      }
    }
  }

  /** `ORDER BY d.id DESC` over rows with distinct ids: the same rows, highest id first. */
  function ByIdDescending(docs: seq<DocumentRow>): (r: seq<DocumentRow>)
    requires DistinctIds(docs)
    ensures NewestFirst(r)
    ensures multiset(r) == multiset(docs)
    ensures |r| == |docs|
    ensures forall d :: d in r <==> d in docs
  {
    if docs == [] then []
    else
      Uncons(docs);
      var rest := ByIdDescending(docs[1..]);
      assert docs[0].id !in Ids(rest);
      var r := InsertById(docs[0], rest);
      assert forall e :: e in r <==> e in multiset(r);
      r
  }

  /** The listing rows of `docs`, one each, in the same order. */
  function RowsOf(t: Tables, docs: seq<DocumentRow>): (rows: seq<ListRow>)
    ensures |rows| == |docs|
    ensures forall k :: 0 <= k < |docs| ==> rows[k] == RowFor(t, docs[k])
  {
    if docs == [] then [] else [RowFor(t, docs[0])] + RowsOf(t, docs[1..])
  }

  /**
   * The listing query: exactly one row per document, ids strictly
   * descending, each carrying the document's columns and the aggregate of
   * its codes.
   */
  function ListQuery(t: Tables): (rows: seq<ListRow>)
    requires WellFormed(t)
    ensures |rows| == |t.documents|
    ensures forall i, j :: 0 <= i < j < |rows| ==> rows[i].id > rows[j].id
    ensures forall d :: d in t.documents ==> RowFor(t, d) in rows
    ensures forall row :: row in rows ==> exists d :: d in t.documents && row == RowFor(t, d)
  {
    var sorted := ByIdDescending(t.documents);
    var rows := RowsOf(t, sorted);
    RowsOfSorted(t, sorted, rows);
    rows
  }

  /** The rows of a newest-first arrangement of the documents are the listing: one per document, ids descending. */
  lemma RowsOfSorted(t: Tables, sorted: seq<DocumentRow>, rows: seq<ListRow>)
    requires NewestFirst(sorted) && (forall d :: d in sorted <==> d in t.documents)
    requires |sorted| == |t.documents| && rows == RowsOf(t, sorted)
    ensures |rows| == |t.documents|
    ensures forall i, j :: 0 <= i < j < |rows| ==> rows[i].id > rows[j].id
    ensures forall d :: d in t.documents ==> RowFor(t, d) in rows
    ensures forall row :: row in rows ==> exists d :: d in t.documents && row == RowFor(t, d)
  {
    forall i, j | 0 <= i < j < |rows| ensures rows[i].id > rows[j].id {
      assert rows[i].id == sorted[i].id && rows[j].id == sorted[j].id;
    }
    forall d | d in t.documents ensures RowFor(t, d) in rows {
      var k :| 0 <= k < |sorted| && sorted[k] == d;
      assert rows[k] == RowFor(t, d);
    }
    forall row | row in rows ensures exists d :: d in t.documents && row == RowFor(t, d) {
      var k :| 0 <= k < |rows| && rows[k] == row;
      assert sorted[k] in sorted;
    }
  }

  // ---------------------------------------------------------------------
  // The server and its connections

  /** Which database a tenant's configuration selects. */
  datatype DbTarget = DbTarget(host: string, database: string)

  function TargetOf(config: TenantConfig): (target: DbTarget)
    ensures target.host == config.dbHost && target.database == config.dbName
  {
    DbTarget(config.dbHost, config.dbName)
  }

  /** Two configurations reach the same database exactly when host and database name agree; the credentials do not choose it. */
  lemma SameDatabase(a: TenantConfig, b: TenantConfig)
    ensures TargetOf(a) == TargetOf(b) <==> a.dbHost == b.dbHost && a.dbName == b.dbName
  {
  }

  /**
   * Which statement of a request raises, if any: statements are numbered
   * from 0 in the order a route runs them; `FailsAt(k, m)` means statement
   * `k` raises with message `m`, so exactly statements `0 .. k-1` ran.
   */
  datatype StatementFault = NoFault | FailsAt(step: nat, message: string)

  function StepOutcome(fault: StatementFault, step: nat): (o: Outcome)
    ensures o.Fail? <==> fault.FailsAt? && fault.step == step
  {
    if fault.FailsAt? && fault.step == step then Fail(fault.message) else Pass
  }

  /** How many of `total` statements run to completion before the fault. */
  function Committed(fault: StatementFault, total: nat): (n: nat)
    ensures n <= total
    ensures n < total <==> fault.FailsAt? && fault.step < total
    ensures n < total ==> n == fault.step
  {
    if fault.FailsAt? && fault.step < total then fault.step else total
  }

  /** The tenant databases reachable from the application, and how many connections are open. */
  class DatabaseServer {
    var tables: map<DbTarget, Tables>
    var openConnections: nat

    ghost predicate Valid()
      reads this
    {
      forall k :: k in tables ==> WellFormed(tables[k])
    }

    constructor (tables: map<DbTarget, Tables>)
      requires forall k :: k in tables ==> WellFormed(tables[k])
      ensures Valid() && this.tables == tables && openConnections == 0
    {
      this.tables := tables;
      openConnections := 0;
    }

    /**
     * `get_db_connection()`: a new connection to the database the
     * configuration names, unless connecting raises (`outcome`) or that
     * database does not exist.
     */
    method Connect(config: TenantConfig, outcome: Outcome) returns (conn: Connection?)
      modifies this`openConnections
      ensures conn == null <==> outcome.Fail? || TargetOf(config) !in tables
      ensures conn == null ==> openConnections == old(openConnections)
      ensures conn != null ==> && fresh(conn) && conn.open && conn.server == this
                               && conn.target == TargetOf(config)
                               && openConnections == old(openConnections) + 1
    {
      if outcome.Fail? || TargetOf(config) !in tables {
        return null;
      }
      conn := new Connection(this, TargetOf(config));
      openConnections := openConnections + 1;
    }
  }

  /** A pymysql connection with `autocommit=True`: each statement is applied, or raises and changes nothing. */
  class Connection {
    const server: DatabaseServer
    const target: DbTarget
    var open: bool

    constructor (server: DatabaseServer, target: DbTarget)
      ensures this.server == server && this.target == target && open
    {
      this.server := server;
      this.target := target;
      open := true;
    }

    ghost predicate Ready()
      reads this, server
    {
      open && server.Valid() && target in server.tables
    }

    /** `conn.close()`. */
    method Close()
      requires open && server.openConnections > 0
      modifies this, server`openConnections
      ensures !open && server.openConnections == old(server.openConnections) - 1
    {
      open := false;
      server.openConnections := server.openConnections - 1;
    }

    /** `INSERT INTO documents (name, date, path)` and `cur.lastrowid`. */
    method InsertDocument(name: string, date: Option<string>, path: Option<string>, outcome: Outcome)
      returns (r: Result<int>)
      requires Ready()
      modifies server`tables
      ensures Ready()
      ensures outcome.Fail? ==> r == Failure(outcome.message) && server.tables == old(server.tables)
      ensures outcome.Pass? ==>
        && r == Success(old(server.tables[target]).autoIncrement)
        && server.tables == old(server.tables)[target := AddDocument(old(server.tables[target]), name, date, path)]
    {
      if outcome.Fail? {
        return Failure(outcome.message);
      }
      var t := server.tables[target];
      server.tables := server.tables[target := AddDocument(t, name, date, path)];
      r := Success(t.autoIncrement);
    }

    /** `INSERT INTO codes (document_id, code)`. */
    method InsertCode(id: int, code: string, outcome: Outcome) returns (r: Outcome)
      requires Ready()
      modifies server`tables
      ensures Ready() && r == outcome
      ensures server.tables == if outcome.Pass? then old(server.tables)[target := AddCode(old(server.tables[target]), id, code)]
                               else old(server.tables)
    {
      if outcome.Pass? {
        server.tables := server.tables[target := AddCode(server.tables[target], id, code)];
      }
      r := outcome;
    }

    /** `SELECT path FROM documents WHERE id=%s` and `fetchone()`. */
    method SelectPath(id: int, outcome: Outcome) returns (r: Result<Option<Option<string>>>)
      requires Ready()
      ensures r == if outcome.Pass? then Success(LookupPath(server.tables[target].documents, id))
                   else Failure(outcome.message)
    {
      if outcome.Fail? {
        return Failure(outcome.message);
      }
      r := Success(LookupPath(server.tables[target].documents, id));
    }

    /** `DELETE FROM codes WHERE document_id=%s`. */
    method DeleteCodes(id: int, outcome: Outcome) returns (r: Outcome)
      requires Ready()
      modifies server`tables
      ensures Ready() && r == outcome
      ensures server.tables == if outcome.Pass? then old(server.tables)[target := RemoveCodes(old(server.tables[target]), id)]
                               else old(server.tables)
    {
      if outcome.Pass? {
        server.tables := server.tables[target := RemoveCodes(server.tables[target], id)];
      }
      r := outcome;
    }

    /** `DELETE FROM documents WHERE id=%s`. */
    method DeleteDocument(id: int, outcome: Outcome) returns (r: Outcome)
      requires Ready()
      modifies server`tables
      ensures Ready() && r == outcome
      ensures server.tables == if outcome.Pass? then old(server.tables)[target := RemoveDocument(old(server.tables[target]), id)]
                               else old(server.tables)
    {
      if outcome.Pass? {
        server.tables := server.tables[target := RemoveDocument(server.tables[target], id)];
      }
      r := outcome;
    }

    /** The listing query and `fetchall()`. */
    method SelectListing(outcome: Outcome) returns (r: Result<seq<ListRow>>)
      requires Ready()
      ensures r == if outcome.Pass? then Success(ListQuery(server.tables[target])) else Failure(outcome.message)
    {
      if outcome.Fail? {
        return Failure(outcome.message);
      }
      r := Success(ListQuery(server.tables[target]));
    }
  }
}
