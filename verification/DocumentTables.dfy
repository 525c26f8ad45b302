/**
 The two stores of a document: the `documents` table (app/database.py) and the Qdrant collection
 (app/db/qdrant.py), with the locked row transaction and its quotas.
 */
module DocumentTables {
  import opened Collections

  type DocId = string
  type Tenant = string

  /** A row of `documents`; rows are hard-deleted, so `deleted_at` is always null. */
  datatype Row = Row(id: DocId, tenant: Tenant, filename: string, size: nat, chunks: nat, roles: seq<string>)

  /** A vector point.  Its random id is renamed to (document, chunk number). */
  datatype Point = Point(doc: DocId, chunk: nat, tenant: Tenant, filename: string, roles: seq<string>)

  /** What ingestion has made sure of before it writes: a dot in the filename and none in the id, and some text. */
  predicate Ingestible(r: Row) {
    r.id != "" && '.' !in r.id && '.' in r.filename && r.chunks > 0
  }

  // ---------------------------------------------------------------- The table

  predicate SameFile(r: Row, t: Tenant, f: string) {
    r.tenant == t && r.filename == f
  }

  /** SELECT COUNT(*) of one tenant. */
  function Count(rows: seq<Row>, t: Tenant): nat {
    if rows == [] then 0 else (if rows[0].tenant == t then 1 else 0) + Count(rows[1..], t)
  }

  /** SELECT COALESCE(SUM(size_bytes), 0) of one tenant. */
  function Bytes(rows: seq<Row>, t: Tenant): nat {
    if rows == [] then 0 else (if rows[0].tenant == t then rows[0].size else 0) + Bytes(rows[1..], t)
  }

  /** COALESCE(MAX(size_bytes) FILTER (WHERE filename = f), 0) of one tenant. */
  function ReplacedSize(rows: seq<Row>, t: Tenant, f: string): nat {
    if rows == [] then 0
    else
      var rest := ReplacedSize(rows[1..], t, f);
      if SameFile(rows[0], t, f) && rows[0].size > rest then rows[0].size else rest
  }

  /** DELETE FROM documents WHERE tenant_id = t AND filename = f. */
  function DeleteFile(rows: seq<Row>, t: Tenant, f: string): seq<Row> {
    if rows == [] then []
    else if SameFile(rows[0], t, f) then DeleteFile(rows[1..], t, f)
    else [rows[0]] + DeleteFile(rows[1..], t, f)
  }

  ghost predicate HasFile(rows: seq<Row>, t: Tenant, f: string) {
    exists r :: r in rows && SameFile(r, t, f)
  }

  ghost predicate UniqueFiles(rows: seq<Row>) {
    forall i, j :: 0 <= i < j < |rows| ==> !SameFile(rows[i], rows[j].tenant, rows[j].filename)
  }

  ghost predicate UniqueIds(rows: seq<Row>) {
    forall r, q :: r in rows && q in rows && r.id == q.id ==> r == q
  }

  lemma {:induction false} DeleteFileIn(rows: seq<Row>, t: Tenant, f: string, r: Row)
    ensures r in DeleteFile(rows, t, f) <==> r in rows && !SameFile(r, t, f)
  {
    if rows != [] {
      DeleteFileIn(rows[1..], t, f, r);
    }
  }

  lemma {:induction false} DeleteFileUnique(rows: seq<Row>, t: Tenant, f: string)
    requires UniqueFiles(rows)
    ensures UniqueFiles(DeleteFile(rows, t, f))
  {
    if rows != [] {
      DeleteFileUnique(rows[1..], t, f);
      forall r | r in DeleteFile(rows[1..], t, f) ensures !SameFile(rows[0], r.tenant, r.filename) {
        DeleteFileIn(rows[1..], t, f, r);
      }
    }
  }

  lemma {:induction false} UsageAppend(rows: seq<Row>, r: Row, t: Tenant)
    ensures Count(rows + [r], t) == Count(rows, t) + if r.tenant == t then 1 else 0
    ensures Bytes(rows + [r], t) == Bytes(rows, t) + if r.tenant == t then r.size else 0
  {
    if rows == [] {
      assert rows + [r] == [r];
    } else {
      UsageAppend(rows[1..], r, t);
      assert (rows + [r])[1..] == rows[1..] + [r];
    }
  }

  lemma {:induction false} NoSuchFile(rows: seq<Row>, t: Tenant, f: string)
    requires !HasFile(rows, t, f)
    ensures DeleteFile(rows, t, f) == rows && ReplacedSize(rows, t, f) == 0
  {
    if rows != [] {
      assert !SameFile(rows[0], t, f);
      assert forall r :: r in rows[1..] ==> r in rows;
      NoSuchFile(rows[1..], t, f);
    }
  }

  /**
   What the replaced row takes out of the usage: with one row per filename and positive sizes, the
   `replaced_size` that the transaction reads is the size of the deleted row, and zero exactly when there is none.
   */
  lemma {:induction false} DeleteFileUsage(rows: seq<Row>, t: Tenant, f: string, u: Tenant)
    requires UniqueFiles(rows) && forall r :: r in rows ==> r.size > 0
    ensures ReplacedSize(rows, t, f) > 0 <==> HasFile(rows, t, f)
    ensures Bytes(DeleteFile(rows, t, f), u) == Bytes(rows, u) - if u == t then ReplacedSize(rows, t, f) else 0
    ensures Count(DeleteFile(rows, t, f), u) == Count(rows, u) - if u == t && HasFile(rows, t, f) then 1 else 0
  {
    if rows != [] {
      if SameFile(rows[0], t, f) {
        assert !HasFile(rows[1..], t, f);
        NoSuchFile(rows[1..], t, f);
      } else {
        DeleteFileUsage(rows[1..], t, f, u);
        assert HasFile(rows, t, f) <==> HasFile(rows[1..], t, f);
      }
    }
  }

  // ---------------------------------------------------------------- The row transaction

  datatype Limits = Limits(maxDocuments: Option<nat>, maxBytes: Option<nat>)

  datatype RecordResult = Recorded(rows: seq<Row>) | QuotaReached | DatabaseError

  predicate IdTaken(rows: seq<Row>, id: DocId) {
    exists k :: 0 <= k < |rows| && rows[k].id == id
  }

  /** `record_document`: usage under the tenant lock, quotas, delete the old row, insert the new one. */
  function RecordDocument(rows: seq<Row>, d: Row, limits: Limits): RecordResult {
    var replaced := ReplacedSize(rows, d.tenant, d.filename);
    var resultingCount := if replaced != 0 then Count(rows, d.tenant) else Count(rows, d.tenant) + 1;
    var resultingBytes := Bytes(rows, d.tenant) - replaced + d.size;
    if limits.maxDocuments.Some? && resultingCount > limits.maxDocuments.value then QuotaReached
    else if limits.maxBytes.Some? && resultingBytes > limits.maxBytes.value then QuotaReached
    else
      var kept := DeleteFile(rows, d.tenant, d.filename);
      // CHECK (size_bytes > 0) and the primary key
      if d.size == 0 || IdTaken(kept, d.id) then DatabaseError else Recorded(kept + [d])
  }

  predicate Within(rows: seq<Row>, t: Tenant, limits: Limits) {
    && (limits.maxDocuments.Some? ==> Count(rows, t) <= limits.maxDocuments.value)
    && (limits.maxBytes.Some? ==> Bytes(rows, t) <= limits.maxBytes.value)
  }

  ghost predicate TableOk(rows: seq<Row>) {
    UniqueFiles(rows) && UniqueIds(rows) && forall r :: r in rows ==> r.size > 0
  }

  /** The table that replaces the file of `d` by `d`. */
  function Replaced(rows: seq<Row>, d: Row): seq<Row> {
    DeleteFile(rows, d.tenant, d.filename) + [d]
  }

  lemma ReplacedUsage(rows: seq<Row>, d: Row, u: Tenant)
    requires TableOk(rows)
    ensures Count(Replaced(rows, d), u) ==
            Count(rows, u) + if u != d.tenant then 0 else if ReplacedSize(rows, d.tenant, d.filename) != 0 then 0 else 1
    ensures Bytes(Replaced(rows, d), u) ==
            Bytes(rows, u) + if u != d.tenant then 0 else d.size - ReplacedSize(rows, d.tenant, d.filename)
  {
    DeleteFileUsage(rows, d.tenant, d.filename, u);
    UsageAppend(DeleteFile(rows, d.tenant, d.filename), d, u);
  }

  lemma ReplacedOk(rows: seq<Row>, d: Row)
    requires TableOk(rows) && d.size > 0 && forall r :: r in rows && r.id == d.id ==> SameFile(r, d.tenant, d.filename)
    ensures TableOk(Replaced(rows, d))
    ensures forall r :: r in Replaced(rows, d) <==> r == d || (r in rows && !SameFile(r, d.tenant, d.filename))
  {
    var kept := DeleteFile(rows, d.tenant, d.filename);
    DeleteFileUnique(rows, d.tenant, d.filename);
    forall r ensures r in kept <==> r in rows && !SameFile(r, d.tenant, d.filename) {
      DeleteFileIn(rows, d.tenant, d.filename, r);
    }
    var rows' := kept + [d];
    forall i, j | 0 <= i < j < |rows'| ensures !SameFile(rows'[i], rows'[j].tenant, rows'[j].filename) {
      assert kept != [] ==> kept[i] in kept;
    }
  }

  /**
   The transaction accepts a document exactly when the table it would leave respects the quotas of the
   tenant (and the row satisfies the table's constraints), and it leaves that table.
   */
  lemma RecordExact(rows: seq<Row>, d: Row, limits: Limits)
    requires TableOk(rows)
    ensures var r := RecordDocument(rows, d, limits);
            && (r.Recorded? <==>
                  && Within(Replaced(rows, d), d.tenant, limits) && d.size > 0
                  && !IdTaken(DeleteFile(rows, d.tenant, d.filename), d.id))
            && (r.QuotaReached? <==> !Within(Replaced(rows, d), d.tenant, limits))
            && (r.Recorded? ==> r.rows == Replaced(rows, d))
  {
    ReplacedUsage(rows, d, d.tenant);
  }

  /** Quota under concurrency: a transaction keeps every tenant within its quotas and one row per filename. */
  lemma RecordKeepsTable(rows: seq<Row>, d: Row, limits: Limits)
    requires TableOk(rows) && RecordDocument(rows, d, limits).Recorded?
    ensures var rows' := RecordDocument(rows, d, limits).rows;
            && TableOk(rows') && (forall t :: Within(rows, t, limits) ==> Within(rows', t, limits))
            && (forall r :: r in rows' <==> r == d || (r in rows && !SameFile(r, d.tenant, d.filename)))
  {
    var kept := DeleteFile(rows, d.tenant, d.filename);
    forall r | r in rows && r.id == d.id ensures SameFile(r, d.tenant, d.filename) {
      DeleteFileIn(rows, d.tenant, d.filename, r);
    }
    ReplacedOk(rows, d);
    forall t | Within(rows, t, limits) ensures Within(Replaced(rows, d), t, limits) {
      ReplacedUsage(rows, d, t);
    }
  }

  // ---------------------------------------------------------------- The unlocked pre-check

  /** `_process_document_ingestion` before embedding: no allowance for a replaced file. */
  predicate PreCheck(rows: seq<Row>, d: Row, limits: Limits) {
    && (limits.maxDocuments.Some? ==> Count(rows, d.tenant) < limits.maxDocuments.value)
    && (limits.maxBytes.Some? ==> Bytes(rows, d.tenant) + d.size <= limits.maxBytes.value)
  }

  /**
   On the same table the pre-check never passes what the transaction refuses; for a new filename the two
   agree, so only replacements are refused too early.
   */
  lemma PreCheckAgainstTransaction(rows: seq<Row>, d: Row, limits: Limits)
    requires TableOk(rows)
    ensures PreCheck(rows, d, limits) ==> Within(Replaced(rows, d), d.tenant, limits)
    ensures !HasFile(rows, d.tenant, d.filename) ==>
              (PreCheck(rows, d, limits) <==> Within(Replaced(rows, d), d.tenant, limits))
  {
    ReplacedUsage(rows, d, d.tenant);
    DeleteFileUsage(rows, d.tenant, d.filename, d.tenant);
  }

  /**
   When the pre-check refuses a replacement that the transaction would accept: the table after it respects both
   quotas, and either the tenant is at its document quota or old and new file together exceed the byte quota.
   */
  lemma PreCheckRefusesReplacement(rows: seq<Row>, d: Row, limits: Limits)
    requires TableOk(rows) && HasFile(rows, d.tenant, d.filename)
    ensures var count, bytes := Count(rows, d.tenant), Bytes(rows, d.tenant);
            var replaced := ReplacedSize(rows, d.tenant, d.filename);
            !PreCheck(rows, d, limits) && Within(Replaced(rows, d), d.tenant, limits) <==>
            && (limits.maxDocuments.Some? ==> count <= limits.maxDocuments.value)
            && (limits.maxBytes.Some? ==> bytes - replaced + d.size <= limits.maxBytes.value)
            && ((limits.maxDocuments.Some? && count == limits.maxDocuments.value)
                || (limits.maxBytes.Some? && bytes + d.size > limits.maxBytes.value))
  {
    ReplacedUsage(rows, d, d.tenant);
    DeleteFileUsage(rows, d.tenant, d.filename, d.tenant);
  }

  /** With a quota of one document the only document of a tenant cannot be replaced, though the transaction would. */
  lemma OnlyDocumentIsStuck(r: Row, d: Row, maxBytes: nat)
    requires r.size > 0 && d.size > 0 && r.id != d.id && SameFile(r, d.tenant, d.filename)
    requires r.size + d.size <= maxBytes
    ensures var limits := Limits(Some(1), Some(maxBytes));
            TableOk([r]) && Within([r], d.tenant, limits)
            && !PreCheck([r], d, limits) && RecordDocument([r], d, limits) == Recorded([d])
  {
    assert [r][1..] == [] && [] + [d] == [d];
    assert DeleteFile([r], d.tenant, d.filename) == [];
    assert Count([r], d.tenant) == 1 && Bytes([r], d.tenant) == r.size;
    assert ReplacedSize([r], d.tenant, d.filename) == r.size;
  }

  // ---------------------------------------------------------------- The collection

  ghost predicate IsPointOf(pt: Point, r: Row) {
    pt == Point(r.id, pt.chunk, r.tenant, r.filename, r.roles) && pt.chunk < r.chunks
  }

  /** The points that ingestion builds, one per chunk. */
  function PointsOf(r: Row): (pts: set<Point>)
    ensures forall pt :: pt in pts <==> IsPointOf(pt, r)
  {
    set i | 0 <= i < r.chunks :: Point(r.id, i, r.tenant, r.filename, r.roles)
  }

  /** `delete_documents_from_qdrant`: by document id if given, else by filename if given, else the whole tenant. */
  function DeletePoints(points: set<Point>, t: Tenant, filename: string, docId: DocId): set<Point> {
    set pt | pt in points &&
      !(pt.tenant == t && (if docId != "" then pt.doc == docId else filename != "" ==> pt.filename == filename))
  }

  /** Every row has all its vectors. */
  ghost predicate NoDangling(rows: seq<Row>, points: set<Point>) {
    forall r :: r in rows ==> PointsOf(r) <= points
  }

  /** Deleting the vectors of a filename strands no row exactly when no row has that filename (any more). */
  lemma FilenameDeleteSafe(rows: seq<Row>, points: set<Point>, t: Tenant, f: string)
    requires NoDangling(rows, points) && f != "" && forall r :: r in rows ==> r.chunks > 0
    ensures NoDangling(rows, DeletePoints(points, t, f, "")) <==> !HasFile(rows, t, f)
  {
    if r :| r in rows && SameFile(r, t, f) {
      assert IsPointOf(Point(r.id, 0, r.tenant, r.filename, r.roles), r);
      assert Point(r.id, 0, r.tenant, r.filename, r.roles) in PointsOf(r) - DeletePoints(points, t, f, "");
    } else {
      forall r | r in rows ensures PointsOf(r) <= DeletePoints(points, t, f, "") {
        assert PointsOf(r) <= points && !SameFile(r, t, f);
      }
    }
  }

  lemma {:induction false} CountPoints(r: Row, n: nat)
    requires n <= r.chunks
    ensures |set i | 0 <= i < n :: Point(r.id, i, r.tenant, r.filename, r.roles)| == n
  {
    if n > 0 {
      var before := set i | 0 <= i < n - 1 :: Point(r.id, i, r.tenant, r.filename, r.roles);
      var last := Point(r.id, n - 1, r.tenant, r.filename, r.roles);
      CountPoints(r, n - 1);
      assert (set i | 0 <= i < n :: Point(r.id, i, r.tenant, r.filename, r.roles)) == before + {last};
    }
  }

  // ---------------------------------------------------------------- Deleting documents

  predicate Matches(r: Row, t: Tenant, x: string) {
    (r.id == x || r.filename == x) && r.tenant == t
  }

  /** DELETE FROM documents WHERE (id::text = x OR filename = x) AND tenant_id = t. */
  function Unmatched(rows: seq<Row>, t: Tenant, x: string): seq<Row> {
    if rows == [] then []
    else if Matches(rows[0], t, x) then Unmatched(rows[1..], t, x)
    else [rows[0]] + Unmatched(rows[1..], t, x)
  }

  /** The filename of the first row that the statement returns; the others are not looked at. */
  function ReturnedFile(rows: seq<Row>, t: Tenant, x: string): Option<string> {
    if rows == [] then None
    else if Matches(rows[0], t, x) then Some(rows[0].filename)
    else ReturnedFile(rows[1..], t, x)
  }

  lemma {:induction false} UnmatchedIn(rows: seq<Row>, t: Tenant, x: string, r: Row)
    ensures r in Unmatched(rows, t, x) <==> r in rows && !Matches(r, t, x)
  {
    if rows != [] {
      UnmatchedIn(rows[1..], t, x, r);
    }
  }

  lemma {:induction false} UnmatchedUnique(rows: seq<Row>, t: Tenant, x: string)
    requires UniqueFiles(rows)
    ensures UniqueFiles(Unmatched(rows, t, x))
  {
    if rows != [] {
      UnmatchedUnique(rows[1..], t, x);
      forall r | r in Unmatched(rows[1..], t, x) ensures !SameFile(rows[0], r.tenant, r.filename) {
        UnmatchedIn(rows[1..], t, x, r);
      }
    }
  }

  lemma {:induction false} ReturnedIsMatched(rows: seq<Row>, t: Tenant, x: string)
    ensures match ReturnedFile(rows, t, x)
            case Some(f) => exists r :: r in rows && Matches(r, t, x) && r.filename == f
            case None => forall r :: r in rows ==> !Matches(r, t, x)
  {
    if rows != [] && !Matches(rows[0], t, x) {
      ReturnedIsMatched(rows[1..], t, x);
    }
  }

  lemma {:induction false} UnmatchedUsage(rows: seq<Row>, t: Tenant, x: string, u: Tenant)
    ensures Count(Unmatched(rows, t, x), u) <= Count(rows, u) && Bytes(Unmatched(rows, t, x), u) <= Bytes(rows, u)
  {
    if rows != [] {
      UnmatchedUsage(rows[1..], t, x, u);
    }
  }

  /** A delete request names one document at most: no filename is the id of a document. */
  lemma OneMatch(rows: seq<Row>, t: Tenant, x: string, r: Row, q: Row)
    requires TableOk(rows) && forall r :: r in rows ==> Ingestible(r)
    requires r in rows && q in rows && Matches(r, t, x) && Matches(q, t, x)
    ensures r == q
  {
    assert r.filename != q.id && q.filename != r.id;
    if r.filename == x {
      SameFileSameRow(rows, r, q);
    }
  }

  lemma SameFileSameRow(rows: seq<Row>, q: Row, r: Row)
    requires UniqueFiles(rows) && q in rows && r in rows && SameFile(q, r.tenant, r.filename)
    ensures q == r
  {
    var i :| 0 <= i < |rows| && rows[i] == q;
    var j :| 0 <= j < |rows| && rows[j] == r;
    assert i == j;
  }

  function OtherTenants(rows: seq<Row>, t: Tenant): seq<Row> {
    if rows == [] then []
    else if rows[0].tenant == t then OtherTenants(rows[1..], t)
    else [rows[0]] + OtherTenants(rows[1..], t)
  }

  lemma {:induction false} OtherTenantsIn(rows: seq<Row>, t: Tenant, r: Row)
    ensures r in OtherTenants(rows, t) <==> r in rows && r.tenant != t
  {
    if rows != [] {
      OtherTenantsIn(rows[1..], t, r);
    }
  }

  lemma {:induction false} OtherTenantsCount(rows: seq<Row>, t: Tenant)
    ensures |rows| - |OtherTenants(rows, t)| == Count(rows, t)
  {
    if rows != [] {
      OtherTenantsCount(rows[1..], t);
    }
  }

  lemma {:induction false} OtherTenantsUnique(rows: seq<Row>, t: Tenant)
    requires UniqueFiles(rows)
    ensures UniqueFiles(OtherTenants(rows, t))
  {
    if rows != [] {
      OtherTenantsUnique(rows[1..], t);
      forall r | r in OtherTenants(rows[1..], t) ensures !SameFile(rows[0], r.tenant, r.filename) {
        OtherTenantsIn(rows[1..], t, r);
      }
    }
  }

  lemma {:induction false} OtherTenantsUsage(rows: seq<Row>, t: Tenant, u: Tenant)
    ensures Count(OtherTenants(rows, t), u) <= Count(rows, u) && Bytes(OtherTenants(rows, t), u) <= Bytes(rows, u)
  {
    if rows != [] {
      OtherTenantsUsage(rows[1..], t, u);
    }
  }

  datatype Stores = Stores(rows: seq<Row>, points: set<Point>)

  /** How the calls of a delete end; database errors are swallowed, errors of the vector store are raised. */
  datatype DeleteCalls = DeleteCalls(rowsOk: bool, vectorsOk: bool)

  /** `delete_document`: the rows that match, then the vectors of the returned filename. */
  function Delete(st: Stores, t: Tenant, x: string, calls: DeleteCalls): Stores {
    var returned := ReturnedFile(st.rows, t, x);
    if !calls.rowsOk then st
    else if returned.None? || returned.value == "" || !calls.vectorsOk then st.(rows := Unmatched(st.rows, t, x))
    else Stores(Unmatched(st.rows, t, x), DeletePoints(st.points, t, returned.value, ""))
  }

  /** `clear_all_documents`: the vectors go even if the rows could not be deleted. */
  function Clear(st: Stores, t: Tenant, calls: DeleteCalls): Stores {
    Stores(if calls.rowsOk then OtherTenants(st.rows, t) else st.rows,
           if calls.vectorsOk then DeletePoints(st.points, t, "", "") else st.points)
  }

  lemma {:induction false} NothingMatches(rows: seq<Row>, t: Tenant, x: string)
    requires forall r :: r in rows ==> !Matches(r, t, x)
    ensures Unmatched(rows, t, x) == rows
  {
    if rows != [] {
      assert rows[0] in rows && forall r :: r in rows[1..] ==> r in rows;
      NothingMatches(rows[1..], t, x);
    }
  }

  /**
   What a delete does to any stores: nothing if the statement fails or matches nothing; otherwise exactly the
   matching rows go, and with them, if the vector store answers, exactly the points of the returned filename.
   */
  lemma DeleteEffect(st: Stores, t: Tenant, x: string, calls: DeleteCalls)
    ensures var st' := Delete(st, t, x, calls);
            && (!calls.rowsOk || (forall r :: r in st.rows ==> !Matches(r, t, x)) ==> st' == st)
            && (calls.rowsOk ==> forall r :: r in st'.rows <==> r in st.rows && !Matches(r, t, x))
            && (calls.rowsOk && !calls.vectorsOk ==> st'.points == st.points)
            && (calls.rowsOk && calls.vectorsOk ==> forall pt :: pt in st'.points <==>
                  && pt in st.points
                  && !(pt.tenant == t && pt.filename != "" && ReturnedFile(st.rows, t, x) == Some(pt.filename)))
  {
    ReturnedIsMatched(st.rows, t, x);
    forall r ensures r in Unmatched(st.rows, t, x) <==> r in st.rows && !Matches(r, t, x) {
      UnmatchedIn(st.rows, t, x, r);
    }
    if forall r :: r in st.rows ==> !Matches(r, t, x) {
      NothingMatches(st.rows, t, x);
    }
  }

  /** What a clear does to any stores: either deletion takes exactly what belongs to the tenant, if it succeeds. */
  lemma ClearEffect(st: Stores, t: Tenant, calls: DeleteCalls)
    ensures var st' := Clear(st, t, calls);
            && (forall r :: r in st'.rows <==> r in st.rows && (calls.rowsOk ==> r.tenant != t))
            && (forall pt :: pt in st'.points <==> pt in st.points && (calls.vectorsOk ==> pt.tenant != t))
            && (!calls.rowsOk ==> st'.rows == st.rows)
  {
    forall r ensures r in OtherTenants(st.rows, t) <==> r in st.rows && r.tenant != t {
      OtherTenantsIn(st.rows, t, r);
    }
  }

  /** The rows that are left are a table within the same quotas. */
  lemma DeleteTable(rows: seq<Row>, t: Tenant, x: string, limits: Limits)
    requires TableOk(rows)
    ensures TableOk(Unmatched(rows, t, x))
    ensures forall r :: r in Unmatched(rows, t, x) <==> r in rows && !Matches(r, t, x)
    ensures forall u :: Within(rows, u, limits) ==> Within(Unmatched(rows, t, x), u, limits)
  {
    UnmatchedUnique(rows, t, x);
    forall r ensures r in Unmatched(rows, t, x) <==> r in rows && !Matches(r, t, x) {
      UnmatchedIn(rows, t, x, r);
    }
    forall u | Within(rows, u, limits) ensures Within(Unmatched(rows, t, x), u, limits) {
      UnmatchedUsage(rows, t, x, u);
    }
  }

  lemma ClearTable(rows: seq<Row>, t: Tenant, limits: Limits)
    requires TableOk(rows)
    ensures TableOk(OtherTenants(rows, t))
    ensures forall r :: r in OtherTenants(rows, t) <==> r in rows && r.tenant != t
    ensures forall u :: Within(rows, u, limits) ==> Within(OtherTenants(rows, t), u, limits)
  {
    OtherTenantsUnique(rows, t);
    forall r ensures r in OtherTenants(rows, t) <==> r in rows && r.tenant != t {
      OtherTenantsIn(rows, t, r);
    }
    forall u | Within(rows, u, limits) ensures Within(OtherTenants(rows, t), u, limits) {
      OtherTenantsUsage(rows, t, u);
    }
  }

  /** No remaining row has the returned filename: filenames are unique and the row that had it is gone. */
  lemma ReturnedFileIsGone(rows: seq<Row>, t: Tenant, x: string)
    requires TableOk(rows)
    ensures ReturnedFile(rows, t, x).Some? ==> !HasFile(Unmatched(rows, t, x), t, ReturnedFile(rows, t, x).value)
  {
    ReturnedIsMatched(rows, t, x);
    if ReturnedFile(rows, t, x).Some? {
      var f := ReturnedFile(rows, t, x).value;
      var q :| q in rows && Matches(q, t, x) && q.filename == f;
      forall r | r in Unmatched(rows, t, x) ensures !SameFile(r, t, f) {
        UnmatchedIn(rows, t, x, r);
        if SameFile(r, t, f) {
          SameFileSameRow(rows, q, r);
        }
      }
    }
  }
}
