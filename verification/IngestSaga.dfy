/**
 Concurrent document ingestion (`_process_document_ingestion`, app/api/routes.py) as interleaved steps over
 the two stores.  Any number of sagas run at once; every call may fail, and a saga may stop anywhere.  Deletes
 and clears come between the steps, under the exact guard that keeps rows from dangling.
 */
module IngestSaga {
  import opened Collections
  import opened DocumentTables

  type Pid = nat

  datatype Saga =
    | Checked(doc: Row)                          // pre-check passed on some earlier usage, ids drawn
    | LookedUp(doc: Row, prev: Option<DocId>)    // previous document id read
    | Upserted(doc: Row, prev: Option<DocId>)    // vectors written
    | Compensating(doc: Row)                     // row refused
    | Committed(doc: Row, prev: Option<DocId>)   // row written, obsolete vectors remain
    | Ended

  datatype Sys = Sys(rows: seq<Row>, points: set<Point>, sagas: map<Pid, Saga>, used: set<DocId>)

  const INIT := Sys([], {}, map[], {})

  datatype Action =
    | Begin(p: Pid, doc: Row) | Lookup(p: Pid) | Upsert(p: Pid) | UpsertFails(p: Pid, part: set<Point>)
    | Record(p: Pid) | RecordFails(p: Pid) | Compensate(p: Pid) | Cleanup(p: Pid) | Stop(p: Pid)
    | Remove(t: Tenant, x: string, calls: DeleteCalls) | Wipe(t: Tenant, calls: DeleteCalls)

  function At(s: Sys, p: Pid): Saga {
    if p in s.sagas then s.sagas[p] else Ended
  }

  function Move(s: Sys, p: Pid, g: Saga): Sys {
    s.(sagas := s.sagas[p := g])
  }

  /** `get_tenant_document_id`: the newest row of the filename; rows are in the order of their insertion. */
  function PreviousId(rows: seq<Row>, t: Tenant, f: string): (id: Option<DocId>)
    ensures id.Some? ==> exists k :: 0 <= k < |rows| && SameFile(rows[k], t, f) && rows[k].id == id.value
                                     && forall j :: k < j < |rows| ==> !SameFile(rows[j], t, f)
    ensures id.None? ==> !HasFile(rows, t, f)
    decreases |rows|
  {
    if rows == [] then None
    else
      var n := |rows| - 1;
      if SameFile(rows[n], t, f) then Some(rows[n].id)
      else
        var rest := PreviousId(rows[..n], t, f);
        assert rows == rows[..n] + [rows[n]];
        rest
  }

  /** A saga has written the vectors of this file and not yet its row. */
  ghost predicate InFlight(s: Sys, t: Tenant, f: string) {
    exists p :: At(s, p).Upserted? && SameFile(At(s, p).doc, t, f)
  }

  /** The delete reaches the vectors of a file. */
  predicate DeletesVectors(rows: seq<Row>, t: Tenant, x: string, calls: DeleteCalls) {
    calls.rowsOk && calls.vectorsOk && ReturnedFile(rows, t, x).Some? && ReturnedFile(rows, t, x).value != ""
  }

  ghost predicate DeleteGuard(s: Sys, t: Tenant, x: string, calls: DeleteCalls) {
    DeletesVectors(s.rows, t, x, calls) ==> !InFlight(s, t, ReturnedFile(s.rows, t, x).value)
  }

  ghost predicate ClearGuard(s: Sys, t: Tenant, calls: DeleteCalls) {
    calls.vectorsOk ==>
      && (forall p :: At(s, p).Upserted? ==> At(s, p).doc.tenant != t)
      && (!calls.rowsOk ==> forall r :: r in s.rows ==> r.tenant != t)
  }

  ghost predicate Enabled(s: Sys, a: Action) {
    match a
    // the id is a fresh UUID
    case Begin(p, doc) => p !in s.sagas && doc.id !in s.used && Ingestible(doc)
    case Lookup(p) => At(s, p).Checked?
    case Upsert(p) => At(s, p).LookedUp?
    case UpsertFails(p, part) => At(s, p).LookedUp? && part <= PointsOf(At(s, p).doc)
    case Record(p) => At(s, p).Upserted?
    case RecordFails(p) => At(s, p).Upserted?
    case Compensate(p) => At(s, p).Compensating?
    case Cleanup(p) => At(s, p).Committed?
    case Stop(p) => true
    case Remove(_, _, _) => true
    case Wipe(_, _) => true
  }

  /** The step spares the files in flight; `DeleteGuardExact` and `ClearGuardExact` say why. */
  ghost predicate Spares(s: Sys, a: Action) {
    (a.Remove? ==> DeleteGuard(s, a.t, a.x, a.calls)) && (a.Wipe? ==> ClearGuard(s, a.t, a.calls))
  }

  function DeleteNext(s: Sys, t: Tenant, x: string, calls: DeleteCalls): Sys {
    var st := Delete(Stores(s.rows, s.points), t, x, calls);
    s.(rows := st.rows, points := st.points)
  }

  function ClearNext(s: Sys, t: Tenant, calls: DeleteCalls): Sys {
    var st := Clear(Stores(s.rows, s.points), t, calls);
    s.(rows := st.rows, points := st.points)
  }

  function Next(s: Sys, limits: Limits, a: Action): Sys
    requires Enabled(s, a)
  {
    match a
    case Begin(p, doc) => Move(s, p, Checked(doc)).(used := s.used + {doc.id})
    case Lookup(p) =>
      var doc := At(s, p).doc;
      Move(s, p, LookedUp(doc, PreviousId(s.rows, doc.tenant, doc.filename)))
    case Upsert(p) =>
      var g := At(s, p);
      Move(s, p, Upserted(g.doc, g.prev)).(points := s.points + PointsOf(g.doc))
    case UpsertFails(p, part) => Move(s, p, Ended).(points := s.points + part)
    case Record(p) =>
      var g := At(s, p);
      var r := RecordDocument(s.rows, g.doc, limits);
      if r.Recorded? then Move(s, p, Committed(g.doc, g.prev)).(rows := r.rows) else Move(s, p, Compensating(g.doc))
    case RecordFails(p) => Move(s, p, Compensating(At(s, p).doc))
    case Compensate(p) =>
      var doc := At(s, p).doc;
      Move(s, p, Ended).(points := DeletePoints(s.points, doc.tenant, "", doc.id))
    case Cleanup(p) =>
      var g := At(s, p);
      Move(s, p, Ended).(
        points := if g.prev.Some? then DeletePoints(s.points, g.doc.tenant, "", g.prev.value) else s.points)
    // a failing compensation or cleanup, or a stopped process
    case Stop(p) => Move(s, p, Ended)
    case Remove(t, x, calls) => DeleteNext(s, t, x, calls)
    case Wipe(t, calls) => ClearNext(s, t, calls)
  }

  ghost predicate ValidRun(s: Sys, limits: Limits, run: seq<Action>)
    decreases |run|
  {
    run == [] || (Enabled(s, run[0]) && ValidRun(Next(s, limits, run[0]), limits, run[1..]))
  }

  ghost function Exec(s: Sys, limits: Limits, run: seq<Action>): Sys
    requires ValidRun(s, limits, run)
    decreases |run|
  {
    if run == [] then s else Exec(Next(s, limits, run[0]), limits, run[1..])
  }

  /** No delete or clear of the run hits a file in flight. */
  ghost predicate SparingRun(s: Sys, limits: Limits, run: seq<Action>)
    requires ValidRun(s, limits, run)
    decreases |run|
  {
    run == [] || (Spares(s, run[0]) && SparingRun(Next(s, limits, run[0]), limits, run[1..]))
  }

  // ---------------------------------------------------------------- The invariant

  ghost predicate Uncommitted(g: Saga) {
    g.Checked? || g.LookedUp? || g.Upserted? || g.Compensating?
  }

  ghost predicate InvTable(s: Sys, limits: Limits) {
    && TableOk(s.rows) && (forall t :: Within(s.rows, t, limits))
    && (forall r :: r in s.rows ==> r.id in s.used && Ingestible(r))
  }

  /** The documents of uncommitted sagas have their own ids, which no row carries. */
  ghost predicate InvOwnIds(s: Sys) {
    && (forall p :: Uncommitted(At(s, p)) ==> At(s, p).doc.id in s.used && Ingestible(At(s, p).doc))
    && (forall p, r :: Uncommitted(At(s, p)) && r in s.rows ==> r.id != At(s, p).doc.id)
    && (forall p, q :: p != q && Uncommitted(At(s, p)) && Uncommitted(At(s, q)) ==> At(s, p).doc.id != At(s, q).doc.id)
  }

  ghost predicate HasPrev(g: Saga, x: DocId) {
    (g.LookedUp? || g.Upserted? || g.Committed?) && g.prev == Some(x)
  }

  /** A remembered previous id belongs to no uncommitted saga, and to no row but one that this saga replaces. */
  ghost predicate PrevFits(s: Sys, g: Saga, x: DocId)
    requires HasPrev(g, x)
  {
    && x in s.used && x != ""
    && (forall q :: Uncommitted(At(s, q)) ==> At(s, q).doc.id != x)
    && (forall r :: r in s.rows && r.id == x ==> !g.Committed? && SameFile(r, g.doc.tenant, g.doc.filename))
  }

  ghost predicate InvPrev(s: Sys) {
    forall p, x :: HasPrev(At(s, p), x) ==> PrevFits(s, At(s, p), x)
  }

  ghost predicate InvPoints(s: Sys) {
    && NoDangling(s.rows, s.points)
    && (forall p :: At(s, p).Upserted? ==> PointsOf(At(s, p).doc) <= s.points)
  }

  ghost predicate Inv(s: Sys, limits: Limits) {
    InvTable(s, limits) && InvOwnIds(s) && InvPrev(s) && InvPoints(s)
  }

  // ---------------------------------------------------------------- Steps

  /** Saga `p` moves; its document stays and it becomes no more uncommitted than it was. */
  ghost predicate Advances(s: Sys, s': Sys, p: Pid) {
    && (forall q :: q != p ==> At(s', q) == At(s, q))
    && (Uncommitted(At(s', p)) ==> Uncommitted(At(s, p)) && At(s', p).doc == At(s, p).doc)
    && s'.used == s.used
  }

  lemma AdvanceIds(s: Sys, s': Sys, p: Pid)
    requires InvOwnIds(s) && Advances(s, s', p)
    requires forall r :: r in s'.rows ==> r in s.rows
    ensures InvOwnIds(s')
  {
  }

  lemma AdvancePrev(s: Sys, s': Sys, p: Pid)
    requires InvPrev(s) && Advances(s, s', p) && s'.rows == s.rows
    requires forall x :: HasPrev(At(s', p), x) ==>
               HasPrev(At(s, p), x) && At(s', p).doc == At(s, p).doc && !At(s', p).Committed?
    ensures InvPrev(s')
  {
    forall q, x | HasPrev(At(s', q), x) ensures PrevFits(s', At(s', q), x) {
      assert HasPrev(At(s, q), x);
    }
  }

  /** Deleting the vectors of a document that no row and no upserted saga carries. */
  lemma DeleteObsolete(s: Sys, t: Tenant, id: DocId, points: set<Point>)
    requires InvPoints(s) && id != "" && points == DeletePoints(s.points, t, "", id)
    requires forall r :: r in s.rows ==> r.id != id
    requires forall p :: At(s, p).Upserted? ==> At(s, p).doc.id != id
    ensures NoDangling(s.rows, points)
    ensures forall p :: At(s, p).Upserted? ==> PointsOf(At(s, p).doc) <= points
  {
  }

  lemma StepBegin(s: Sys, limits: Limits, p: Pid, doc: Row)
    requires Inv(s, limits) && Enabled(s, Begin(p, doc))
    ensures Inv(Next(s, limits, Begin(p, doc)), limits)
  {
    var s' := Next(s, limits, Begin(p, doc));
    assert forall q :: At(s', q) == if q == p then Checked(doc) else At(s, q);
    forall q, x | HasPrev(At(s', q), x) ensures PrevFits(s', At(s', q), x) {
      if q != p { assert HasPrev(At(s, q), x); }
    }
  }

  lemma StepLookup(s: Sys, limits: Limits, p: Pid)
    requires Inv(s, limits) && At(s, p).Checked?
    ensures Inv(Next(s, limits, Lookup(p)), limits)
  {
    var s' := Next(s, limits, Lookup(p));
    var doc := At(s, p).doc;
    assert Uncommitted(At(s, p));
    AdvanceIds(s, s', p);
    assert InvPrev(s') by {
      forall q, x | HasPrev(At(s', q), x)
        ensures PrevFits(s', At(s', q), x)
      {
        assert forall u :: Uncommitted(At(s', u)) <==> Uncommitted(At(s, u));
        if q == p {
          var r :| r in s.rows && SameFile(r, doc.tenant, doc.filename) && r.id == x;
        } else {
          assert HasPrev(At(s, q), x);
        }
      }
    }
  }

  lemma StepUpsert(s: Sys, limits: Limits, p: Pid)
    requires Inv(s, limits) && At(s, p).LookedUp?
    ensures Inv(Next(s, limits, Upsert(p)), limits)
  {
    var s' := Next(s, limits, Upsert(p));
    AdvanceIds(s, s', p);
    AdvancePrev(s, s', p);
  }

  /** The row of `doc` replaces the rows of its filename, and saga `p` is committed. */
  ghost predicate Commits(s: Sys, s': Sys, p: Pid) {
    && At(s, p).Upserted? && At(s', p) == Committed(At(s, p).doc, At(s, p).prev)
    && (forall q :: q != p ==> At(s', q) == At(s, q)) && s'.used == s.used && s'.points == s.points
    && var d := At(s, p).doc;
       forall r :: r in s'.rows <==> r == d || (r in s.rows && !SameFile(r, d.tenant, d.filename))
  }

  lemma CommitIds(s: Sys, s': Sys, p: Pid)
    requires InvOwnIds(s) && Commits(s, s', p)
    ensures InvOwnIds(s')
  {
    assert Uncommitted(At(s, p));
    assert forall q :: Uncommitted(At(s', q)) ==> q != p && Uncommitted(At(s, q));
  }

  lemma CommitPrev(s: Sys, s': Sys, p: Pid)
    requires InvPrev(s) && Commits(s, s', p)
    ensures InvPrev(s')
  {
    assert Uncommitted(At(s, p));
    assert forall q :: Uncommitted(At(s', q)) ==> Uncommitted(At(s, q));
    forall q, x | HasPrev(At(s', q), x)
      ensures PrevFits(s', At(s', q), x)
    {
      assert HasPrev(At(s, q), x);
      assert At(s, p).doc.id != x;
      forall u | Uncommitted(At(s', u)) ensures At(s', u).doc.id != x {
        assert u != p && At(s', u) == At(s, u);
      }
    }
  }

  lemma StepRecord(s: Sys, limits: Limits, p: Pid)
    requires Inv(s, limits) && At(s, p).Upserted? && RecordDocument(s.rows, At(s, p).doc, limits).Recorded?
    ensures Inv(Next(s, limits, Record(p)), limits)
  {
    var s' := Next(s, limits, Record(p));
    assert Uncommitted(At(s, p));
    RecordKeepsTable(s.rows, At(s, p).doc, limits);
    assert Commits(s, s', p);
    CommitIds(s, s', p);
    CommitPrev(s, s', p);
  }

  /** Steps that only delete vectors of document `id`, or none. */
  lemma StepEnd(s: Sys, limits: Limits, p: Pid, s': Sys)
    requires Inv(s, limits) && Advances(s, s', p) && s'.rows == s.rows
    requires At(s', p).Ended? || (At(s, p).Upserted? && At(s', p).Compensating?)
    requires NoDangling(s.rows, s'.points)
    requires forall q :: q != p && At(s, q).Upserted? ==> PointsOf(At(s, q).doc) <= s'.points
    ensures Inv(s', limits)
  {
    AdvanceIds(s, s', p);
    AdvancePrev(s, s', p);
  }

  /** A committed saga cleans up vectors that no row and no upserted saga needs. */
  lemma CleanupIsObsolete(s: Sys, p: Pid)
    requires InvOwnIds(s) && InvPrev(s) && InvPoints(s) && At(s, p).Committed?
    ensures var g := At(s, p);
            var points := if g.prev.Some? then DeletePoints(s.points, g.doc.tenant, "", g.prev.value) else s.points;
            NoDangling(s.rows, points) && forall q :: At(s, q).Upserted? ==> PointsOf(At(s, q).doc) <= points
  {
    if At(s, p).prev.Some? {
      var x := At(s, p).prev.value;
      assert HasPrev(At(s, p), x);
      assert PrevFits(s, At(s, p), x);
      assert forall q :: At(s, q).Upserted? ==> Uncommitted(At(s, q));
      DeleteObsolete(s, At(s, p).doc.tenant, x, DeletePoints(s.points, At(s, p).doc.tenant, "", x));
    }
  }

  // ---------------------------------------------------------------- Deletes between the steps of sagas

  /** Rows and points go; the sagas stay where they are. */
  lemma StepShrink(s: Sys, s': Sys, limits: Limits)
    requires Inv(s, limits) && s'.sagas == s.sagas && s'.used == s.used
    requires TableOk(s'.rows) && (forall t :: Within(s'.rows, t, limits))
    requires forall r :: r in s'.rows ==> r in s.rows
    requires InvPoints(s')
    ensures Inv(s', limits)
  {
    assert forall p :: At(s', p) == At(s, p);
    forall p, x | HasPrev(At(s', p), x) ensures PrevFits(s', At(s', p), x) {
      assert HasPrev(At(s, p), x);
    }
  }

  /** Deleting the vectors of a file that no row has any more. */
  lemma FileDeletePoints(s: Sys, s': Sys, t: Tenant, f: string)
    requires InvPoints(s) && s'.sagas == s.sagas && f != "" && s'.points == DeletePoints(s.points, t, f, "")
    requires !HasFile(s'.rows, t, f) && !InFlight(s, t, f)
    requires forall r :: r in s'.rows ==> r in s.rows
    ensures InvPoints(s')
  {
    forall r | r in s'.rows ensures PointsOf(r) <= s'.points {
      assert PointsOf(r) <= s.points && !SameFile(r, t, f);
    }
    forall p | At(s', p).Upserted? ensures PointsOf(At(s', p).doc) <= s'.points {
      assert At(s', p) == At(s, p) && PointsOf(At(s, p).doc) <= s.points;
      assert !SameFile(At(s, p).doc, t, f);
    }
  }

  lemma StepDelete(s: Sys, limits: Limits, t: Tenant, x: string, calls: DeleteCalls)
    requires Inv(s, limits) && DeleteGuard(s, t, x, calls)
    ensures Inv(DeleteNext(s, t, x, calls), limits)
  {
    var s' := DeleteNext(s, t, x, calls);
    DeleteTable(s.rows, t, x, limits);
    ReturnedFileIsGone(s.rows, t, x);
    if DeletesVectors(s.rows, t, x, calls) {
      FileDeletePoints(s, s', t, ReturnedFile(s.rows, t, x).value);
    } else {
      assert forall p :: At(s', p) == At(s, p);
    }
    StepShrink(s, s', limits);
  }

  lemma StepClear(s: Sys, limits: Limits, t: Tenant, calls: DeleteCalls)
    requires Inv(s, limits) && ClearGuard(s, t, calls)
    ensures Inv(ClearNext(s, t, calls), limits)
  {
    var s' := ClearNext(s, t, calls);
    ClearTable(s.rows, t, limits);
    assert forall p :: At(s', p) == At(s, p);
    forall r | r in s'.rows ensures PointsOf(r) <= s'.points {
      assert PointsOf(r) <= s.points && (calls.vectorsOk ==> r.tenant != t);
    }
    forall p | At(s', p).Upserted? ensures PointsOf(At(s', p).doc) <= s'.points {
      assert PointsOf(At(s, p).doc) <= s.points;
    }
    StepShrink(s, s', limits);
  }

  /** The first vector of a document whose file is deleted is gone. */
  lemma FirstVectorGone(points: set<Point>, d: Row, f: string)
    requires d.chunks > 0 && (f == "" || d.filename == f)
    ensures !(PointsOf(d) <= DeletePoints(points, d.tenant, f, ""))
  {
    var pt := Point(d.id, 0, d.tenant, d.filename, d.roles);
    assert IsPointOf(pt, d);
    assert pt in PointsOf(d) && pt !in DeletePoints(points, d.tenant, f, "");
  }

  /** A delete keeps the vectors of all rows and of all sagas about to record exactly under its guard. */
  lemma DeleteGuardExact(s: Sys, limits: Limits, t: Tenant, x: string, calls: DeleteCalls)
    requires Inv(s, limits)
    ensures InvPoints(DeleteNext(s, t, x, calls)) <==> DeleteGuard(s, t, x, calls)
  {
    if DeleteGuard(s, t, x, calls) {
      StepDelete(s, limits, t, x, calls);
    } else {
      var f := ReturnedFile(s.rows, t, x).value;
      var p :| At(s, p).Upserted? && SameFile(At(s, p).doc, t, f);
      assert Uncommitted(At(s, p)) && At(DeleteNext(s, t, x, calls), p) == At(s, p);
      FirstVectorGone(s.points, At(s, p).doc, f);
    }
  }

  /** A clear does so exactly under its guard; if only the rows cannot be deleted, rows are left dangling. */
  lemma ClearGuardExact(s: Sys, limits: Limits, t: Tenant, calls: DeleteCalls)
    requires Inv(s, limits)
    ensures InvPoints(ClearNext(s, t, calls)) <==> ClearGuard(s, t, calls)
  {
    var s' := ClearNext(s, t, calls);
    if ClearGuard(s, t, calls) {
      StepClear(s, limits, t, calls);
    } else if p :| At(s, p).Upserted? && At(s, p).doc.tenant == t {
      assert Uncommitted(At(s, p)) && At(s', p) == At(s, p);
      FirstVectorGone(s.points, At(s, p).doc, "");
    } else {
      var r :| r in s.rows && r.tenant == t;
      FirstVectorGone(s.points, r, "");
      assert r in s'.rows;
    }
  }

  /** Against the guard: the saga in flight commits a row without its vectors, unless the transaction refuses it. */
  lemma DeleteInFlightStrands(s: Sys, limits: Limits, t: Tenant, x: string, calls: DeleteCalls, p: Pid)
    requires Inv(s, limits) && DeletesVectors(s.rows, t, x, calls)
    requires At(s, p).Upserted? && SameFile(At(s, p).doc, t, ReturnedFile(s.rows, t, x).value)
    ensures var s1 := DeleteNext(s, t, x, calls);
            var s2 := Next(s1, limits, Record(p));
            At(s2, p).Committed? <==> !NoDangling(s2.rows, s2.points)
  {
    var s1 := DeleteNext(s, t, x, calls);
    var s2 := Next(s1, limits, Record(p));
    var d := At(s, p).doc;
    assert Uncommitted(At(s, p)) && At(s1, p) == At(s, p);
    DeleteTable(s.rows, t, x, limits);
    ReturnedFileIsGone(s.rows, t, x);
    if At(s2, p).Committed? {
      RecordKeepsTable(s1.rows, d, limits);
      FirstVectorGone(s.points, d, d.filename);
      assert d in s2.rows;
    } else {
      forall r | r in s1.rows ensures PointsOf(r) <= s1.points {
        assert r in s.rows && PointsOf(r) <= s.points && !SameFile(r, t, d.filename);
      }
    }
  }

  lemma StepInv(s: Sys, limits: Limits, a: Action)
    requires Inv(s, limits) && Enabled(s, a) && Spares(s, a)
    ensures Inv(Next(s, limits, a), limits)
  {
    var s' := Next(s, limits, a);
    match a
    case Begin(p, doc) => StepBegin(s, limits, p, doc);
    case Lookup(p) => StepLookup(s, limits, p);
    case Upsert(p) => StepUpsert(s, limits, p);
    case UpsertFails(p, _) => StepEnd(s, limits, p, s');
    case Record(p) =>
      if RecordDocument(s.rows, At(s, p).doc, limits).Recorded? {
        StepRecord(s, limits, p);
      } else {
        StepEnd(s, limits, p, s');
      }
    case RecordFails(p) => StepEnd(s, limits, p, s');
    case Compensate(p) =>
      var doc := At(s, p).doc;
      assert Uncommitted(At(s, p));
      DeleteObsolete(s, doc.tenant, doc.id, s'.points);
      StepEnd(s, limits, p, s');
    case Cleanup(p) =>
      CleanupIsObsolete(s, p);
      StepEnd(s, limits, p, s');
    case Stop(p) => StepEnd(s, limits, p, s');
    case Remove(t, x, calls) => StepDelete(s, limits, t, x, calls);
    case Wipe(t, calls) => StepClear(s, limits, t, calls);
  }

  lemma {:induction false} RunInv(s: Sys, limits: Limits, run: seq<Action>)
    requires Inv(s, limits) && ValidRun(s, limits, run) && SparingRun(s, limits, run)
    ensures Inv(Exec(s, limits, run), limits)
    decreases |run|
  {
    if run != [] {
      StepInv(s, limits, run[0]);
      RunInv(Next(s, limits, run[0]), limits, run[1..]);
    }
  }

  // ---------------------------------------------------------------- Theorems

  /** No dangling row: under every interleaving of ingests, failing or not, each row has all its chunk vectors. */
  lemma NoDanglingRow(limits: Limits, run: seq<Action>)
    requires ValidRun(INIT, limits, run) && SparingRun(INIT, limits, run)
    ensures var s := Exec(INIT, limits, run);
            forall r, i :: r in s.rows && 0 <= i < r.chunks ==>
                             Point(r.id, i, r.tenant, r.filename, r.roles) in s.points
  {
    RunInv(INIT, limits, run);
    var s := Exec(INIT, limits, run);
    forall r, i | r in s.rows && 0 <= i < r.chunks ensures Point(r.id, i, r.tenant, r.filename, r.roles) in s.points {
      assert IsPointOf(Point(r.id, i, r.tenant, r.filename, r.roles), r);
      assert PointsOf(r) <= s.points;
    }
  }

  /** The table alone, in runs whose deletes and clears may come at any time. */
  ghost predicate TableWithin(s: Sys, limits: Limits) {
    TableOk(s.rows) && forall t :: Within(s.rows, t, limits)
  }

  lemma StepTable(s: Sys, limits: Limits, a: Action)
    requires TableWithin(s, limits) && Enabled(s, a)
    ensures TableWithin(Next(s, limits, a), limits)
  {
    match a
    case Record(p) =>
      if RecordDocument(s.rows, At(s, p).doc, limits).Recorded? {
        RecordKeepsTable(s.rows, At(s, p).doc, limits);
      }
    case Remove(t, x, _) => DeleteTable(s.rows, t, x, limits);
    case Wipe(t, _) => ClearTable(s.rows, t, limits);
    case _ =>
  }

  lemma {:induction false} RunTable(s: Sys, limits: Limits, run: seq<Action>)
    requires TableWithin(s, limits) && ValidRun(s, limits, run)
    ensures TableWithin(Exec(s, limits, run), limits)
    decreases |run|
  {
    if run != [] {
      StepTable(s, limits, run[0]);
      RunTable(Next(s, limits, run[0]), limits, run[1..]);
    }
  }

  /**
   Quota under concurrency: no interleaving of ingests, deletes and clears exceeds a quota or leaves two rows of
   one filename, whatever the pre-checks saw.
   */
  lemma QuotaUnderConcurrency(limits: Limits, run: seq<Action>, t: Tenant)
    requires ValidRun(INIT, limits, run)
    ensures var rows := Exec(INIT, limits, run).rows;
            && (limits.maxDocuments.Some? ==> Count(rows, t) <= limits.maxDocuments.value)
            && (limits.maxBytes.Some? ==> Bytes(rows, t) <= limits.maxBytes.value)
            && UniqueFiles(rows)
  {
    RunTable(INIT, limits, run);
    assert Within(Exec(INIT, limits, run).rows, t, limits);
  }
}
