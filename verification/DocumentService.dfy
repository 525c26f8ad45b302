/**
 Ingest, delete and clear of app/api/routes.py run one after the other, and how far they keep the table
 and the vector collection in exact agreement.
 */
module DocumentService {
  import opened Collections
  import opened DocumentTables
  import opened IngestSaga
  import Filenames
  import Visibility
  import ResponseCache

  /** The vectors are exactly the chunk vectors of the rows. */
  ghost predicate Agree(st: Stores) {
    forall pt :: pt in st.points <==> exists r :: r in st.rows && IsPointOf(pt, r)
  }

  ghost predicate Sound(st: Stores) {
    TableOk(st.rows) && Agree(st) && forall r :: r in st.rows ==> Ingestible(r)
  }

  // ---------------------------------------------------------------- Ingest

  datatype Upsert = Written | Broken(part: set<Point>)

  /** How the calls of one ingest end: a broken upsert may have written some of the points. */
  datatype Calls = Calls(upsert: Upsert, recordOk: bool, cleanupOk: bool)

  /** The checks before anything is written: extension, some text, quotas as far as the pre-check sees, role names. */
  predicate Admitted(st: Stores, d: Row, limits: Limits) {
    Filenames.Supported(d.filename) && d.chunks > 0 && PreCheck(st.rows, d, limits) && Visibility.Accepted(d.roles)
  }

  predicate Accepted(st: Stores, d: Row, limits: Limits, calls: Calls) {
    && Admitted(st, d, limits) && calls.upsert.Written? && calls.recordOk
    && RecordDocument(st.rows, d, limits).Recorded?
  }

  function Ingest(st: Stores, d: Row, limits: Limits, calls: Calls): Stores {
    if !Admitted(st, d, limits) then st
    else if calls.upsert.Broken? then st.(points := st.points + calls.upsert.part)
    else
      var prev := PreviousId(st.rows, d.tenant, d.filename);
      var points := st.points + PointsOf(d);
      var r := RecordDocument(st.rows, d, limits);
      if calls.recordOk && r.Recorded?
      then Stores(r.rows,
                  if prev.Some? && calls.cleanupOk then DeletePoints(points, d.tenant, "", prev.value) else points)
      else Stores(st.rows, if calls.cleanupOk then DeletePoints(points, d.tenant, "", d.id) else points)
  }

  /** A fresh UUID, and a broken upsert that wrote nothing but points of the document. */
  ghost predicate NewDocument(st: Stores, d: Row, calls: Calls) {
    && (calls.upsert.Broken? ==> calls.upsert.part <= PointsOf(d))
    && Filenames.UuidText(d.id) && forall r :: r in st.rows ==> r.id != d.id
  }

  lemma AdmittedIsIngestible(st: Stores, d: Row, limits: Limits, calls: Calls)
    requires NewDocument(st, d, calls) && Admitted(st, d, limits)
    ensures Ingestible(d)
  {
    Filenames.UuidHasNoDot(d.id);
    Filenames.SupportedHasDot(d.filename);
  }

  /**
   Which documents are accepted, in the caller's terms: one with text, a known extension, a size and known roles,
   while the tenant has room for one more document and for its size; the transaction then has no reason to refuse.
   */
  lemma AcceptedIff(st: Stores, d: Row, limits: Limits, calls: Calls)
    requires Sound(st) && NewDocument(st, d, calls)
    ensures Accepted(st, d, limits, calls) <==>
            && Filenames.Supported(d.filename) && d.chunks > 0 && d.size > 0
            && d.roles != [] && (forall r | r in d.roles :: r == "admin" || r == "analyst" || r == "viewer")
            && (limits.maxDocuments.Some? ==> Count(st.rows, d.tenant) + 1 <= limits.maxDocuments.value)
            && (limits.maxBytes.Some? ==> Bytes(st.rows, d.tenant) + d.size <= limits.maxBytes.value)
            && calls.upsert.Written? && calls.recordOk
  {
    RecordExact(st.rows, d, limits);
    PreCheckAgainstTransaction(st.rows, d, limits);
    forall r | r in DeleteFile(st.rows, d.tenant, d.filename) ensures r.id != d.id {
      DeleteFileIn(st.rows, d.tenant, d.filename, r);
    }
    assert Visibility.Accepted(d.roles) <==>
           d.roles != [] && forall r | r in d.roles :: r == "admin" || r == "analyst" || r == "viewer";
  }

  lemma AgreePoint(st: Stores, pt: Point, r: Row)
    requires Sound(st) && pt in st.points && r in st.rows && pt.doc == r.id
    ensures IsPointOf(pt, r)
  {
    var q :| q in st.rows && IsPointOf(pt, q);
    assert q == r;
  }

  /** A point that belongs to no row. */
  lemma Orphan(st: Stores, pt: Point)
    requires pt in st.points && forall r :: r in st.rows ==> r.id != pt.doc
    ensures !Agree(st)
  {
  }

  /** The calls that the code does not repeat: a broken upsert wrote nothing, and a needed clean-up succeeded. */
  predicate LeavesNoOrphans(st: Stores, d: Row, limits: Limits, calls: Calls) {
    if !Admitted(st, d, limits) then true
    else if calls.upsert.Broken? then calls.upsert.part == {}
    else calls.cleanupOk || (Accepted(st, d, limits, calls) && PreviousId(st.rows, d.tenant, d.filename).None?)
  }

  /**
   An accepted ingest puts the document in place of the previous one of its filename, any other leaves the table
   alone; the stores agree after it exactly when nothing was left behind by a broken upsert or a failed clean-up,
   and a refused ingest then leaves both stores exactly as they were.
   */
  lemma IngestKeepsAgreementIff(st: Stores, d: Row, limits: Limits, calls: Calls)
    requires Sound(st) && NewDocument(st, d, calls)
    ensures Sound(Ingest(st, d, limits, calls)) <==> LeavesNoOrphans(st, d, limits, calls)
    ensures Ingest(st, d, limits, calls).rows ==
            if Accepted(st, d, limits, calls) then Replaced(st.rows, d) else st.rows
    ensures !Accepted(st, d, limits, calls) && LeavesNoOrphans(st, d, limits, calls) ==>
              Ingest(st, d, limits, calls) == st
  {
    RecordExact(st.rows, d, limits);
    if LeavesNoOrphans(st, d, limits, calls) {
      if Accepted(st, d, limits, calls) {
        AcceptedIngest(st, d, limits, calls);
      } else {
        RefusedIngest(st, d);
      }
    } else if Accepted(st, d, limits, calls) {
      UncleanIngest(st, d, limits, calls);
    } else {
      UncompensatedIngest(st, d, limits, calls);
    }
  }

  /** A refused document leaves vectors behind. */
  lemma UncompensatedIngest(st: Stores, d: Row, limits: Limits, calls: Calls)
    requires NewDocument(st, d, calls)
    requires !LeavesNoOrphans(st, d, limits, calls) && !Accepted(st, d, limits, calls)
    ensures !Agree(Ingest(st, d, limits, calls))
  {
    var first := Point(d.id, 0, d.tenant, d.filename, d.roles);
    assert IsPointOf(first, d) && first in PointsOf(d);
    if calls.upsert.Broken? {
      var pt :| pt in calls.upsert.part;
      assert IsPointOf(pt, d);
      Orphan(Ingest(st, d, limits, calls), pt);
    } else {
      Orphan(Ingest(st, d, limits, calls), first);
    }
  }

  /** The replaced document's vectors stay behind. */
  lemma UncleanIngest(st: Stores, d: Row, limits: Limits, calls: Calls)
    requires Sound(st) && NewDocument(st, d, calls)
    requires !LeavesNoOrphans(st, d, limits, calls) && Accepted(st, d, limits, calls)
    ensures !Agree(Ingest(st, d, limits, calls))
  {
    var st' := Ingest(st, d, limits, calls);
    var k :| 0 <= k < |st.rows| && SameFile(st.rows[k], d.tenant, d.filename)
             && Some(st.rows[k].id) == PreviousId(st.rows, d.tenant, d.filename);
    var q := st.rows[k];
    var pt := Point(q.id, 0, q.tenant, q.filename, q.roles);
    assert q in st.rows && IsPointOf(pt, q) && pt in st.points;
    RecordKeepsTable(st.rows, d, limits);
    forall r | r in st'.rows ensures r.id != pt.doc {
      assert r == d || (r in st.rows && !SameFile(r, d.tenant, d.filename));
    }
    Orphan(st', pt);
  }

  lemma RefusedIngest(st: Stores, d: Row)
    requires Sound(st) && forall r :: r in st.rows ==> r.id != d.id
    requires d.id != ""
    ensures DeletePoints(st.points + PointsOf(d), d.tenant, "", d.id) == st.points
  {
    forall pt | pt in st.points ensures pt.doc != d.id {
      var q :| q in st.rows && IsPointOf(pt, q);
    }
  }

  lemma AcceptedIngest(st: Stores, d: Row, limits: Limits, calls: Calls)
    requires Sound(st) && NewDocument(st, d, calls) && Accepted(st, d, limits, calls)
    requires LeavesNoOrphans(st, d, limits, calls)
    ensures Sound(Ingest(st, d, limits, calls)) && Ingest(st, d, limits, calls).rows == Replaced(st.rows, d)
  {
    var st' := Ingest(st, d, limits, calls);
    AdmittedIsIngestible(st, d, limits, calls);
    RecordKeepsTable(st.rows, d, limits);
    RecordExact(st.rows, d, limits);
    var prev := PreviousId(st.rows, d.tenant, d.filename);
    forall r | r in st.rows ensures SameFile(r, d.tenant, d.filename) <==> prev == Some(r.id) {
      PreviousRow(st.rows, d.tenant, d.filename, r);
    }
    ReplacedPoints(st, st', d, prev);
  }

  /** The points after a replacement: those of the old document are gone, those of the new one are there. */
  lemma ReplacedPoints(st: Stores, st': Stores, d: Row, prev: Option<DocId>)
    requires Sound(st) && forall r :: r in st.rows ==> r.id != d.id
    requires prev.Some? ==> prev.value != "" && prev.value != d.id
    requires forall r :: r in st.rows ==> (SameFile(r, d.tenant, d.filename) <==> prev == Some(r.id))
    requires forall r :: r in st'.rows <==> r == d || (r in st.rows && !SameFile(r, d.tenant, d.filename))
    requires st'.points == if prev.None? then st.points + PointsOf(d)
                           else DeletePoints(st.points + PointsOf(d), d.tenant, "", prev.value)
    ensures Agree(st')
  {
    forall pt ensures pt in st'.points <==> exists r :: r in st'.rows && IsPointOf(pt, r) {
      if pt in st'.points {
        if pt in PointsOf(d) {
          assert d in st'.rows && IsPointOf(pt, d);
        } else {
          var r :| r in st.rows && IsPointOf(pt, r);
          assert r in st'.rows;
        }
      }
      if r :| r in st'.rows && IsPointOf(pt, r) {
        assert r == d ==> pt in PointsOf(d);
        assert r != d ==> pt in st.points;
      }
    }
  }

  /** With one row per filename the previous id is the id of that row. */
  lemma PreviousRow(rows: seq<Row>, t: Tenant, f: string, r: Row)
    requires UniqueFiles(rows) && UniqueIds(rows) && r in rows
    ensures SameFile(r, t, f) <==> PreviousId(rows, t, f) == Some(r.id)
  {
    if PreviousId(rows, t, f).Some? {
      var k :| 0 <= k < |rows| && SameFile(rows[k], t, f) && Some(rows[k].id) == PreviousId(rows, t, f);
      assert rows[k] in rows;
      if SameFile(r, t, f) {
        SameFileSameRow(rows, rows[k], r);
      }
    }
  }

  /** A saga that runs undisturbed, as far as its calls succeed. */
  function SoloRun(s: Sys, p: Pid, d: Row, limits: Limits, calls: Calls): Sys
    requires Enabled(s, Begin(p, d)) && (calls.upsert.Broken? ==> calls.upsert.part <= PointsOf(d))
  {
    var s2 := Next(Next(s, limits, Begin(p, d)), limits, Lookup(p));
    if calls.upsert.Broken? then Next(s2, limits, UpsertFails(p, calls.upsert.part))
    else
      var s4 := Next(Next(s2, limits, Upsert(p)), limits, if calls.recordOk then Record(p) else RecordFails(p));
      Next(s4, limits, if !calls.cleanupOk then Stop(p) else if At(s4, p).Committed? then Cleanup(p) else Compensate(p))
  }

  /** An undisturbed saga computes what the sequential ingest computes. */
  lemma SoloSaga(s: Sys, p: Pid, d: Row, limits: Limits, calls: Calls)
    requires Enabled(s, Begin(p, d)) && (calls.upsert.Broken? ==> calls.upsert.part <= PointsOf(d))
    requires Admitted(Stores(s.rows, s.points), d, limits)
    ensures var s' := SoloRun(s, p, d, limits, calls);
            At(s', p) == Ended && Stores(s'.rows, s'.points) == Ingest(Stores(s.rows, s.points), d, limits, calls)
  {
    var s2 := Next(Next(s, limits, Begin(p, d)), limits, Lookup(p));
    assert s2.rows == s.rows && s2.points == s.points;
    assert At(s2, p) == LookedUp(d, PreviousId(s.rows, d.tenant, d.filename));
    if calls.upsert.Written? {
      var s3 := Next(s2, limits, Upsert(p));
      SoloRecord(s3, p, limits, calls);
    }
  }

  /** The second half of an undisturbed saga. */
  lemma SoloRecord(s: Sys, p: Pid, limits: Limits, calls: Calls)
    requires At(s, p).Upserted?
    ensures var d := At(s, p).doc;
            var s4 := Next(s, limits, if calls.recordOk then Record(p) else RecordFails(p));
            var a := if !calls.cleanupOk then Stop(p) else if At(s4, p).Committed? then Cleanup(p) else Compensate(p);
            var s5 := Next(s4, limits, a);
            var r := RecordDocument(s.rows, d, limits);
            && At(s5, p) == Ended
            && s5.rows == (if calls.recordOk && r.Recorded? then r.rows else s.rows)
            && s5.points == if !calls.cleanupOk then s.points
                            else if !(calls.recordOk && r.Recorded?) then DeletePoints(s.points, d.tenant, "", d.id)
                            else if At(s, p).prev.Some? then DeletePoints(s.points, d.tenant, "", At(s, p).prev.value)
                            else s.points
  {
  }

  // ---------------------------------------------------------------- Delete and clear

  const BOTH := DeleteCalls(true, true)

  lemma DeleteAgrees(st: Stores, t: Tenant, x: string)
    requires Sound(st)
    ensures Sound(Delete(st, t, x, BOTH))
  {
    var st' := Delete(st, t, x, BOTH);
    DeleteTable(st.rows, t, x, Limits(None, None));
    ReturnedIsMatched(st.rows, t, x);
    forall pt ensures pt in st'.points <==> exists r :: r in st'.rows && IsPointOf(pt, r) {
      if pt in st'.points {
        var r :| r in st.rows && IsPointOf(pt, r);
        if Matches(r, t, x) {
          OnlyReturned(st.rows, t, x, r);
        }
        assert r in st'.rows;
      }
      if r :| r in st'.rows && IsPointOf(pt, r) {
        if q :| q in st.rows && Matches(q, t, x) && SameFile(q, t, r.filename) && r.tenant == t {
          SameFileSameRow(st.rows, q, r);
        }
      }
    }
  }

  /** The returned filename is that of the one deleted row. */
  lemma OnlyReturned(rows: seq<Row>, t: Tenant, x: string, r: Row)
    requires TableOk(rows) && forall r :: r in rows ==> Ingestible(r)
    requires r in rows && Matches(r, t, x)
    ensures ReturnedFile(rows, t, x) == Some(r.filename) && r.filename != ""
  {
    ReturnedIsMatched(rows, t, x);
    var q :| q in rows && Matches(q, t, x) && Some(q.filename) == ReturnedFile(rows, t, x);
    OneMatch(rows, t, x, r, q);
  }

  /** A deleted row whose vectors stay. */
  lemma DeletedRowStrands(st: Stores, t: Tenant, x: string, calls: DeleteCalls, r: Row)
    requires Sound(st) && r in st.rows && Matches(r, t, x) && calls.rowsOk && !calls.vectorsOk
    ensures !Agree(Delete(st, t, x, calls))
  {
    var st' := Delete(st, t, x, calls);
    DeleteTable(st.rows, t, x, Limits(None, None));
    ReturnedIsMatched(st.rows, t, x);
    var pt := Point(r.id, 0, r.tenant, r.filename, r.roles);
    assert IsPointOf(pt, r) && pt in st.points && pt in st'.points;
    forall k | k in st'.rows ensures k.id != r.id {
      assert k in st.rows && (k.id == r.id ==> k == r);
    }
    Orphan(st', pt);
  }

  ghost predicate CleanDelete(st: Stores, t: Tenant, x: string, calls: DeleteCalls) {
    !calls.rowsOk || calls.vectorsOk || forall r :: r in st.rows ==> !Matches(r, t, x)
  }

  /**
   A delete keeps exact agreement exactly when the vectors of the deleted row could be deleted too, if there was
   one; a failing row deletion changes nothing.
   */
  lemma DeleteKeepsAgreementIff(st: Stores, t: Tenant, x: string, calls: DeleteCalls)
    requires Sound(st)
    ensures Sound(Delete(st, t, x, calls)) <==> CleanDelete(st, t, x, calls)
  {
    if calls == BOTH {
      DeleteAgrees(st, t, x);
    } else if calls.rowsOk {
      if r :| r in st.rows && Matches(r, t, x) {
        DeletedRowStrands(st, t, x, calls, r);
      } else {
        NothingMatches(st.rows, t, x);
      }
    }
  }

  /**
   A request by id or by filename that the table answers deletes that document and nothing else, and its vectors if
   the vector store answers too; any other request changes nothing.
   */
  lemma DeleteExact(st: Stores, t: Tenant, x: string, calls: DeleteCalls)
    requires Sound(st)
    ensures var st' := Delete(st, t, x, calls);
            && (!calls.rowsOk || (forall r :: r in st.rows ==> !Matches(r, t, x)) ==> st' == st)
            && forall r :: r in st.rows && Matches(r, t, x) && calls.rowsOk ==>
                 && (forall q :: q in st'.rows <==> q in st.rows && q != r)
                 && st'.points == if calls.vectorsOk then st.points - PointsOf(r) else st.points
  {
    DeleteEffect(st, t, x, calls);
    forall r | r in st.rows && Matches(r, t, x) && calls.rowsOk
      ensures forall q :: q in Delete(st, t, x, calls).rows <==> q in st.rows && q != r
      ensures Delete(st, t, x, calls).points == if calls.vectorsOk then st.points - PointsOf(r) else st.points
    {
      DeleteOne(st, t, x, calls, r);
    }
  }

  lemma DeleteOne(st: Stores, t: Tenant, x: string, calls: DeleteCalls, r: Row)
    requires Sound(st) && r in st.rows && Matches(r, t, x) && calls.rowsOk
    ensures forall q :: q in Delete(st, t, x, calls).rows <==> q in st.rows && q != r
    ensures Delete(st, t, x, calls).points == if calls.vectorsOk then st.points - PointsOf(r) else st.points
  {
    DeleteEffect(st, t, x, calls);
    OnlyReturned(st.rows, t, x, r);
    forall q | q in st.rows && Matches(q, t, x) ensures q == r {
      OneMatch(st.rows, t, x, r, q);
    }
    forall pt | pt in st.points ensures pt in PointsOf(r) <==> pt.tenant == t && pt.filename == r.filename {
      var q :| q in st.rows && IsPointOf(pt, q);
      if SameFile(q, t, r.filename) {
        SameFileSameRow(st.rows, q, r);
      }
    }
  }

  /** Clearing removes everything of the tenant, nothing else, and keeps agreement. */
  lemma ClearAgrees(st: Stores, t: Tenant)
    requires Sound(st)
    ensures Sound(Clear(st, t, BOTH))
    ensures forall r :: r in Clear(st, t, BOTH).rows <==> r in st.rows && r.tenant != t
    ensures forall pt :: pt in Clear(st, t, BOTH).points <==> pt in st.points && pt.tenant != t
  {
    var st' := Clear(st, t, BOTH);
    ClearTable(st.rows, t, Limits(None, None));
    forall pt ensures pt in st'.points <==> exists r :: r in st'.rows && IsPointOf(pt, r) {
      if pt in st'.points {
        var r :| r in st.rows && IsPointOf(pt, r);
        assert r in st'.rows;
      }
    }
  }

  /** Of the two deletions of a clear only one succeeds: a row of the tenant loses its vectors, or they their row. */
  lemma HalfClear(st: Stores, t: Tenant, calls: DeleteCalls, r: Row)
    requires Sound(st) && r in st.rows && r.tenant == t && calls.rowsOk != calls.vectorsOk
    ensures !Agree(Clear(st, t, calls))
  {
    var st' := Clear(st, t, calls);
    var pt := Point(r.id, 0, r.tenant, r.filename, r.roles);
    assert IsPointOf(pt, r) && pt in st.points;
    ClearTable(st.rows, t, Limits(None, None));
    if calls.rowsOk {
      forall k | k in st'.rows ensures k.id != r.id {
        assert k in st.rows && (k.id == r.id ==> k == r);
      }
      Orphan(st', pt);
    } else {
      assert r in st'.rows && pt !in st'.points;
    }
  }

  lemma NothingToClear(st: Stores, t: Tenant, calls: DeleteCalls)
    requires Sound(st) && forall r :: r in st.rows ==> r.tenant != t
    ensures Sound(Clear(st, t, calls))
  {
    ClearTable(st.rows, t, Limits(None, None));
    var st' := Clear(st, t, calls);
    assert forall r :: r in st'.rows <==> r in st.rows;
    forall pt ensures pt in st'.points <==> pt in st.points {
      if pt in st.points {
        var r :| r in st.rows && IsPointOf(pt, r);
      }
    }
  }

  /**
   A clear keeps exact agreement exactly when both deletions succeed, both fail, or there is nothing to clear:
   the error of the row deletion is swallowed and the vectors go all the same.
   */
  lemma ClearKeepsAgreementIff(st: Stores, t: Tenant, calls: DeleteCalls)
    requires Sound(st)
    ensures Sound(Clear(st, t, calls)) <==> CleanClear(st, t, calls)
  {
    if calls == BOTH {
      ClearAgrees(st, t);
    } else if calls.rowsOk != calls.vectorsOk {
      if r :| r in st.rows && r.tenant == t {
        HalfClear(st, t, calls, r);
      } else {
        NothingToClear(st, t, calls);
      }
    }
  }

  // ---------------------------------------------------------------- Sequences of operations

  datatype Op =
    | IngestOp(d: Row, calls: Calls) | DeleteOp(t: Tenant, x: string, how: DeleteCalls)
    | ClearOp(t: Tenant, how: DeleteCalls)

  function Apply(st: Stores, limits: Limits, op: Op): Stores {
    match op
    case IngestOp(d, calls) => Ingest(st, d, limits, calls)
    case DeleteOp(t, x, how) => Delete(st, t, x, how)
    case ClearOp(t, how) => Clear(st, t, how)
  }

  /** Both deletions succeed, both fail, or the tenant has no document. */
  ghost predicate CleanClear(st: Stores, t: Tenant, how: DeleteCalls) {
    how.rowsOk == how.vectorsOk || forall r :: r in st.rows ==> r.tenant != t
  }

  ghost predicate CleanOp(st: Stores, limits: Limits, op: Op) {
    match op
    case IngestOp(d, calls) => LeavesNoOrphans(st, d, limits, calls)
    case DeleteOp(t, x, how) => CleanDelete(st, t, x, how)
    case ClearOp(t, how) => CleanClear(st, t, how)
  }

  /** Every operation is clean, and new documents have fresh ids. */
  ghost predicate Proper(st: Stores, limits: Limits, ops: seq<Op>)
    decreases |ops|
  {
    ops == [] ||
    (&& (ops[0].IngestOp? ==> NewDocument(st, ops[0].d, ops[0].calls))
     && CleanOp(st, limits, ops[0])
     && Proper(Apply(st, limits, ops[0]), limits, ops[1..]))
  }

  /** An operation keeps the stores in agreement exactly when it is clean. */
  lemma AgreementIffClean(st: Stores, limits: Limits, op: Op)
    requires Sound(st) && (op.IngestOp? ==> NewDocument(st, op.d, op.calls))
    ensures Sound(Apply(st, limits, op)) <==> CleanOp(st, limits, op)
  {
    match op
    case IngestOp(d, calls) => IngestKeepsAgreementIff(st, d, limits, calls);
    case DeleteOp(t, x, how) => DeleteKeepsAgreementIff(st, t, x, how);
    case ClearOp(t, how) => ClearKeepsAgreementIff(st, t, how);
  }

  function ApplyAll(st: Stores, limits: Limits, ops: seq<Op>): Stores
    decreases |ops|
  {
    if ops == [] then st else ApplyAll(Apply(st, limits, ops[0]), limits, ops[1..])
  }

  lemma {:induction false} SoundAfter(st: Stores, limits: Limits, ops: seq<Op>)
    requires Sound(st) && Proper(st, limits, ops)
    ensures Sound(ApplyAll(st, limits, ops))
    decreases |ops|
  {
    if ops != [] {
      AgreementIffClean(st, limits, ops[0]);
      SoundAfter(Apply(st, limits, ops[0]), limits, ops[1..]);
    }
  }

  lemma PointsPerRow(st: Stores, r: Row)
    requires Sound(st) && r in st.rows
    ensures |set pt | pt in st.points && pt.doc == r.id| == r.chunks
  {
    CountPoints(r, r.chunks);
    var mine := set pt | pt in st.points && pt.doc == r.id;
    forall pt ensures pt in mine <==> IsPointOf(pt, r) {
      if pt in mine { AgreePoint(st, pt, r); }
    }
    assert mine == PointsOf(r);
  }

  /**
   Exact store agreement: after any proper sequence of operations the vectors are exactly `chunks` points
   per row, with the document id, filename, tenant and roles of the row, and no other points.
   */
  lemma ExactAgreement(limits: Limits, ops: seq<Op>)
    requires Proper(Stores([], {}), limits, ops)
    ensures var st := ApplyAll(Stores([], {}), limits, ops);
            && (forall pt :: pt in st.points <==> exists r :: r in st.rows && IsPointOf(pt, r))
            && (forall r :: r in st.rows ==> |set pt | pt in st.points && pt.doc == r.id| == r.chunks)
  {
    SoundAfter(Stores([], {}), limits, ops);
    var st := ApplyAll(Stores([], {}), limits, ops);
    forall r | r in st.rows ensures |set pt | pt in st.points && pt.doc == r.id| == r.chunks {
      PointsPerRow(st, r);
    }
  }

  // ---------------------------------------------------------------- Changes and the epoch

  /** The operation gets to its last step, the bump of the tenant's cache epoch. */
  predicate Bumps(st: Stores, limits: Limits, op: Op) {
    match op
    case IngestOp(d, calls) =>
      Accepted(st, d, limits, calls) && (calls.cleanupOk || PreviousId(st.rows, d.tenant, d.filename).None?)
    case DeleteOp(t, x, how) => DeletesVectors(st.rows, t, x, how)
    case ClearOp(t, how) => how.vectorsOk
  }

  /** The operation leaves vectors without a row, so it fails before its last step. */
  ghost predicate LeavesOrphans(st: Stores, limits: Limits, op: Op) {
    match op
    case IngestOp(d, calls) => !LeavesNoOrphans(st, d, limits, calls)
    case DeleteOp(t, x, how) => !CleanDelete(st, t, x, how)
    case ClearOp(t, how) => how.rowsOk && !how.vectorsOk && exists r :: r in st.rows && r.tenant == t
  }

  /**
   Cached answers are invalidated by every operation that changes one of the stores, except exactly by those that
   leave vectors without a row.
   */
  lemma UnbumpedChangeIff(st: Stores, limits: Limits, op: Op)
    requires Sound(st) && (op.IngestOp? ==> NewDocument(st, op.d, op.calls))
    ensures Apply(st, limits, op) != st && !Bumps(st, limits, op) <==> LeavesOrphans(st, limits, op)
  {
    match op
    case IngestOp(d, calls) => IngestKeepsAgreementIff(st, d, limits, calls);
    case DeleteOp(t, x, how) => UnbumpedDelete(st, t, x, how);
    case ClearOp(t, how) =>
      ClearEffect(st, t, how);
      if r :| r in st.rows && r.tenant == t {
        assert how.rowsOk ==> r !in Clear(st, t, how).rows;
      } else {
        NothingOfTenant(st.rows, t);
      }
  }

  lemma UnbumpedDelete(st: Stores, t: Tenant, x: string, how: DeleteCalls)
    requires Sound(st)
    ensures Delete(st, t, x, how) != st && !DeletesVectors(st.rows, t, x, how) <==> !CleanDelete(st, t, x, how)
  {
    DeleteExact(st, t, x, how);
    ReturnedIsMatched(st.rows, t, x);
    if r :| r in st.rows && Matches(r, t, x) {
      OnlyReturned(st.rows, t, x, r);
      assert how.rowsOk ==> r !in Delete(st, t, x, how).rows;
    }
  }

  lemma {:induction false} NothingOfTenant(rows: seq<Row>, t: Tenant)
    requires forall r :: r in rows ==> r.tenant != t
    ensures OtherTenants(rows, t) == rows
  {
    if rows != [] {
      assert rows[0] in rows && forall r :: r in rows[1..] ==> r in rows;
      NothingOfTenant(rows[1..], t);
    }
  }

  // ---------------------------------------------------------------- The endpoints

  datatype DeleteResult = Forbidden | NotFound | Failed | Deleted(filename: string)

  datatype ClearResult = Refused | VectorsLeft | Cleared(count: nat)

  class Backend {
    var rows: seq<Row>
    var points: set<Point>
    var epochs: map<Tenant, nat>

    function View(): Stores
      reads this
    {
      Stores(rows, points)
    }

    constructor ()
      ensures View() == Stores([], {}) && epochs == map[]
    {
      rows, points, epochs := [], {}, map[];
    }

    /** `record_document`; the flags stand for the exceptions that the source raises. */
    method RecordDocument(d: Row, limits: Limits) returns (result: RecordResult)
      modifies this`rows
      ensures result == DocumentTables.RecordDocument(old(rows), d, limits)
      ensures rows == if result.Recorded? then result.rows else old(rows)
    {
      var replacedSize := ReplacedSize(rows, d.tenant, d.filename);
      var resultingCount := Count(rows, d.tenant);
      if replacedSize == 0 {
        resultingCount := resultingCount + 1;
      }
      var resultingStorage := Bytes(rows, d.tenant) - replacedSize + d.size;
      if limits.maxDocuments.Some? && resultingCount > limits.maxDocuments.value {
        return QuotaReached;
      }
      if limits.maxBytes.Some? && resultingStorage > limits.maxBytes.value {
        return QuotaReached;
      }
      var kept := DeleteFile(rows, d.tenant, d.filename);
      if d.size == 0 || IdTaken(kept, d.id) {
        return DatabaseError;
      }
      rows := kept + [d];
      result := Recorded(rows);
    }

    method ProcessDocumentIngestion(d: Row, limits: Limits, calls: Calls) returns (ok: bool)
      modifies this
      ensures View() == Ingest(old(View()), d, limits, calls)
      ensures ok <==> Bumps(old(View()), limits, IngestOp(d, calls))
      ensures epochs == if ok then ResponseCache.Incr(old(epochs), d.tenant) else old(epochs)
    {
      if !Filenames.Supported(d.filename) || d.chunks == 0 {
        return false;
      }
      if !PreCheck(rows, d, limits) {
        return false;
      }
      if !Visibility.Accepted(d.roles) {
        return false;
      }
      var previousDocId := PreviousId(rows, d.tenant, d.filename);
      if calls.upsert.Broken? {
        points := points + calls.upsert.part;
        return false;
      }
      points := points + PointsOf(d);
      ok := false;
      if calls.recordOk {
        var result := RecordDocument(d, limits);
        ok := result.Recorded?;
      }
      if !ok {
        if calls.cleanupOk {
          points := DeletePoints(points, d.tenant, "", d.id);
        }
        return false;
      }
      if previousDocId.Some? {
        if !calls.cleanupOk {
          return false;
        }
        points := DeletePoints(points, d.tenant, "", previousDocId.value);
      }
      epochs := ResponseCache.Incr(epochs, d.tenant);
    }

    /** The callers are administrators, by the check that both endpoints begin with. */
    method DeleteDocument(role: string, t: Tenant, docId: string, calls: DeleteCalls) returns (result: DeleteResult)
      modifies this
      ensures View() == if role == "admin" then Delete(old(View()), t, docId, calls) else old(View())
      ensures result == Forbidden <==> role != "admin"
      ensures result.Deleted? ==> exists r :: r in old(rows) && Matches(r, t, docId) && r.filename == result.filename
      ensures role == "admin" && (forall r :: r in old(rows) ==> Ingestible(r)) ==>
                var found := calls.rowsOk && exists r :: r in old(rows) && Matches(r, t, docId);
                && (result == NotFound <==> !found)
                && (result == Failed <==> found && !calls.vectorsOk)
                && (result.Deleted? <==> found && calls.vectorsOk)
      ensures result.Deleted? <==> role == "admin" && Bumps(old(View()), Limits(None, None), DeleteOp(t, docId, calls))
      ensures epochs == if result.Deleted? then ResponseCache.Incr(old(epochs), t) else old(epochs)
    {
      if role != "admin" {
        return Forbidden;
      }
      if !calls.rowsOk {
        return NotFound;
      }
      ReturnedIsMatched(rows, t, docId);
      var filename := ReturnedFile(rows, t, docId);
      rows := Unmatched(rows, t, docId);
      if filename.None? || filename.value == "" {
        return NotFound;
      }
      if !calls.vectorsOk {
        return Failed;
      }
      points := DeletePoints(points, t, filename.value, "");
      epochs := ResponseCache.Incr(epochs, t);
      result := Deleted(filename.value);
    }

    /** Reports how many documents were deleted. */
    method ClearAllDocuments(role: string, t: Tenant, calls: DeleteCalls) returns (result: ClearResult)
      modifies this
      ensures View() == if role == "admin" then Clear(old(View()), t, calls) else old(View())
      ensures result == Refused <==> role != "admin"
      ensures result == VectorsLeft <==> role == "admin" && !calls.vectorsOk
      ensures epochs == if result.Cleared? then ResponseCache.Incr(old(epochs), t) else old(epochs)
      ensures result.Cleared? ==> result.count == if calls.rowsOk then Count(old(rows), t) else 0
    {
      if role != "admin" {
        return Refused;
      }
      var deletedCount := 0;
      if calls.rowsOk {
        OtherTenantsCount(rows, t);
        var kept := OtherTenants(rows, t);
        deletedCount := |rows| - |kept|;
        rows := kept;
      }
      if !calls.vectorsOk {
        return VectorsLeft;
      }
      points := DeletePoints(points, t, "", "");
      epochs := ResponseCache.Incr(epochs, t);
      result := Cleared(deletedCount);
    }
  }
}
