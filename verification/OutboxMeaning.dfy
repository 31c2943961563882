/** What the outbox statements and transactions do, row by row, in the terms of
    the table (crates/episcience-db/src/repos/synthesis_provo_edges.rs,
    crates/episcience-db/src/synthesis/publish.rs). */
module OutboxMeaning {
  import opened Base
  import opened Outbox

  /** The provenance of a synthesis: derived from each claim it cites, refining
      its parent, composed of its prerequisites, attributed to its owner, and
      refining the workflow run that asked for it. */
  predicate IsProvenance(e: Edge, cited: seq<Uuid>, parent: Option<Uuid>, prereqs: seq<Uuid>, owner: Uuid, workflow: Option<Uuid>) {
    || (e.pred == WasDerivedFrom && e.kind == ClaimTarget && e.target in cited)
    || (e.pred == Refines && e.kind == SynthesisTarget && parent == Some(e.target))
    || (e.pred == ComposedOf && e.kind == SynthesisTarget && e.target in prereqs)
    || (e.pred == AttributedTo && e.kind == AgentTarget && e.target == owner)
    || (e.pred == Refines && e.kind == WorkflowTarget && workflow == Some(e.target))
  }

  lemma PlansAreProvenance(cited: seq<Uuid>, parent: Option<Uuid>, prereqs: seq<Uuid>, owner: Uuid, workflow: Option<Uuid>)
    ensures forall e :: e in PlanOf(cited, parent, prereqs, owner, workflow) <==> IsProvenance(e, cited, parent, prereqs, owner, workflow)
  {
    var plan := PlanOf(cited, parent, prereqs, owner, workflow);
    var claims, composed := ClaimEdges(cited), PrereqEdges(prereqs);
    forall i | 0 <= i < |cited| ensures claims[i] in plan {
    }
    forall i | 0 <= i < |prereqs| ensures composed[i] in plan {
    }
    forall e | IsProvenance(e, cited, parent, prereqs, owner, workflow) ensures e in plan {
      if e.pred == WasDerivedFrom {
        var i :| 0 <= i < |cited| && cited[i] == e.target;
        assert claims[i] == e;
      } else if e.pred == ComposedOf {
        var i :| 0 <= i < |prereqs| && prereqs[i] == e.target;
        assert composed[i] == e;
      }
    }
  }

  predicate ClaimHidden(e: Edge, seen: set<Uuid>) {
    e.kind == ClaimTarget && e.target !in seen
  }

  /** A planned row: not written, not deferred, never tried. */
  predicate IsFresh(row: OutRow) {
    row.edgeId.None? && row.deferred.None? && row.attempts == 0 && row.lastError.None?
  }

  /** Planning: refused, with nothing changed, exactly when an insert names a
      claim out of sight. Otherwise the provenance is there, what was written
      or out of sight stays as it was, and no other row is left. */
  lemma PlanningMeans(b: Book, cited: seq<Uuid>, parent: Option<Uuid>, prereqs: seq<Uuid>, owner: Uuid, workflow: Option<Uuid>, seen: nat -> set<Uuid>)
    ensures var after := PlanTx(b, PlanOf(cited, parent, prereqs, owner, workflow), seen);
      && after.kernel == b.kernel
      && ((exists i :: 0 <= i < |cited| && cited[i] !in seen(i + 1)) ==> after == b)
      && ((forall i :: 0 <= i < |cited| ==> cited[i] in seen(i + 1)) ==>
            && (forall e :: e in after.rows <==>
                  IsProvenance(e, cited, parent, prereqs, owner, workflow)
                  || (e in b.rows && (b.rows[e].edgeId.Some? || ClaimHidden(e, seen(0)))))
            && (forall e :: e in after.rows ==>
                  if e in b.rows && (b.rows[e].edgeId.Some? || ClaimHidden(e, seen(0)))
                  then after.rows[e] == b.rows[e] else IsFresh(after.rows[e])))
  {
    hide PlanOf, IsProvenance;
    PlansAreProvenance(cited, parent, prereqs, owner, workflow);
    ClaimsComeFirst(cited, parent, prereqs, owner, workflow, seen);
  }

  /** The five edge shapes, and no other. */
  lemma ShapesAre(e: Edge)
    ensures IsShape(e) <==>
      || (e.pred, e.kind) == (WasDerivedFrom, ClaimTarget)
      || (e.pred, e.kind) == (Refines, SynthesisTarget)
      || (e.pred, e.kind) == (Refines, WorkflowTarget)
      || (e.pred, e.kind) == (ComposedOf, SynthesisTarget)
      || (e.pred, e.kind) == (AttributedTo, AgentTarget)
  {
  }

  // ── A write transaction ─────────────────────────────────────────────────

  /** Discarded: unwritten, in sight, and naming a claim no cluster cites. */
  predicate Dropped(row: OutRow, e: Edge, cited: set<Uuid>, seen: set<Uuid>) {
    row.edgeId.None? && e.kind == ClaimTarget && e.target !in cited && e.target in seen
  }

  /** Due: neither written nor deferred, and in sight. */
  predicate Due(row: OutRow, e: Edge, seen: set<Uuid>) {
    row.edgeId.None? && row.deferred.None? && !ClaimHidden(e, seen)
  }

  /** The listing has the due rows left after the discard, each once. */
  ghost predicate ListsDue(order: seq<Edge>, b: Book, w: Writer) {
    && Distinct(order)
    && forall e :: e in order <==> e in b.rows && !Dropped(b.rows[e], e, w.cited, w.seen(0)) && Due(b.rows[e], e, w.seen(2))
  }

  lemma ListingMeans(b: Book, w: Writer, order: seq<Edge>)
    ensures Lists(order, PendingSeen(WithoutUncited(b.rows, w.cited, w.seen(0)), w.seen(2))) <==> ListsDue(order, b, w)
  {
    var kept := WithoutUncited(b.rows, w.cited, w.seen(0));
    assert forall e :: e in order <==> e in Elements(order);
    if ListsDue(order, b, w) {
      assert Elements(order) == PendingSeen(kept, w.seen(2));
    }
  }

  /** The synthesis is not public or not publishable: what is uncited goes, the
      due rows are deferred, nothing else changes and no edge is created. */
  lemma DeferringMeans(b: Book, w: Writer, order: seq<Edge>)
    requires !w.publishable
    ensures var (after, outcome) := WriteTx(b, w, order);
      && after.kernel == b.kernel && outcome.Some? && outcome.value.written == [] && outcome.value.failure.None?
      && (forall e :: e in after.rows <==> e in b.rows && !Dropped(b.rows[e], e, w.cited, w.seen(0)))
      && (forall e :: e in after.rows ==>
            after.rows[e] == if Due(b.rows[e], e, w.seen(2)) then b.rows[e].(deferred := Some("private")) else b.rows[e])
      && outcome.value.discarded == |set e | e in b.rows && e !in after.rows|
      && outcome.value.deferred == |set e | e in after.rows && after.rows[e] != b.rows[e]|
  {
    hide WithoutUncited, Deferred, PendingSeen, Dropped, Due;
    DeferredRows(b.rows, w);
  }

  lemma DeferredRows(rows: map<Edge, OutRow>, w: Writer)
    ensures var kept := WithoutUncited(rows, w.cited, w.seen(0));
      var after := Deferred(kept, "private", w.seen(2));
      && (forall e :: e in after <==> e in rows && !Dropped(rows[e], e, w.cited, w.seen(0)))
      && (forall e :: e in after ==> after[e] == if Due(rows[e], e, w.seen(2)) then rows[e].(deferred := Some("private")) else rows[e])
      && rows.Keys - kept.Keys == (set e | e in rows && e !in after)
      && PendingSeen(kept, w.seen(2)) == (set e | e in after && after[e] != rows[e])
  {
    hide Pending, ClaimHidden, Uncited, Dropped, Due, Sees;
    var kept := WithoutUncited(rows, w.cited, w.seen(0));
    var after := Deferred(kept, "private", w.seen(2));
    forall e | e in rows
      ensures e in kept <==> !Dropped(rows[e], e, w.cited, w.seen(0))
      ensures Pending(rows[e]) && Sees(w.seen(2), e) <==> Due(rows[e], e, w.seen(2))
      ensures Due(rows[e], e, w.seen(2)) ==> rows[e].(deferred := Some("private")) != rows[e]
    {
      InTableTerms(rows[e], e, w);
    }
    assert after.Keys == kept.Keys;
  }

  lemma InTableTerms(row: OutRow, e: Edge, w: Writer)
    ensures row.edgeId.None? && Uncited(e, w.cited) && Sees(w.seen(0), e) <==> Dropped(row, e, w.cited, w.seen(0))
    ensures Pending(row) && Sees(w.seen(2), e) <==> Due(row, e, w.seen(2))
    ensures Due(row, e, w.seen(2)) ==> row.(deferred := Some("private")) != row
  {
  }

  /** The kernel takes the edge: it has a shape and is not refused. */
  predicate Taken(e: Edge, w: Writer) {
    IsShape(e) && w.refusal(e).None?
  }

  /** After n edges of the listing were written. */
  ghost predicate WrittenSoFar(after: Book, b: Book, w: Writer, order: seq<Edge>, n: nat) {
    && n <= |order|
    && (forall k :: 0 <= k < n ==> Taken(order[k], w) && !ClaimHidden(order[k], w.seen(k + 3)))
    && |after.kernel| == |b.kernel| + n && b.kernel <= after.kernel
    && (forall k :: 0 <= k < n ==>
          var made := after.kernel[|b.kernel| + k];
          made.edge == order[k] && made.id == w.newId(order[k])
          && (made.cited <==> !(order[k].kind == ClaimTarget && order[k].target !in w.cited)))
    && (forall e :: e in after.rows <==> e in b.rows && !Dropped(b.rows[e], e, w.cited, w.seen(0)))
    && (forall e :: e in after.rows && e in order[..n] ==> after.rows[e] == b.rows[e].(edgeId := Some(w.newId(e))))
    && (forall e :: e in after.rows && e !in order[..n] && (n < |order| ==> e != order[n]) ==> after.rows[e] == b.rows[e])
  }

  /** The loop stopped at a row that has gone out of sight. */
  ghost predicate LostSight(w: Writer, order: seq<Edge>) {
    exists n :: 0 <= n < |order| && ClaimHidden(order[n], w.seen(n + 3)) && forall k :: 0 <= k < n ==> Taken(order[k], w)
  }

  /** The n-th listed edge was refused: one more attempt, and the error kept. */
  ghost predicate RefusedAt(after: Book, b: Book, w: Writer, order: seq<Edge>, n: nat, failure: Option<Failure>) {
    && n < |order| && !Taken(order[n], w) && !ClaimHidden(order[n], w.seen(n + 3))
    && order[n] in after.rows && order[n] in b.rows
    && failure.Some? && failure.value.EdgeRefused? && failure.value.edge == order[n]
    && var row := after.rows[order[n]];
       && row.attempts == b.rows[order[n]].attempts + 1 && row.lastError == Some(failure.value.error)
       && row == b.rows[order[n]].(attempts := row.attempts, lastError := row.lastError)
  }

  /** What a write that was not undone has done and reports. */
  ghost predicate Reported(after: Book, o: WriteOutcome, b: Book, w: Writer, order: seq<Edge>) {
    var n := |o.written|;
    && WrittenSoFar(after, b, w, order, n)
    && (forall k :: 0 <= k < n ==> o.written[k] == w.newId(order[k]))
    && o.deferred == 0 && o.discarded == |set e | e in b.rows && e !in after.rows|
    && (n < |order| ==> RefusedAt(after, b, w, order, n, o.failure))
    && (n == |order| ==> (o.failure.None? <==> forall e :: e in after.rows ==> !Due(after.rows[e], e, w.seen(n + 3))))
  }

  /** The synthesis is publishable: the due rows are written in the listed
      order until the kernel refuses one, which counts the attempt and keeps
      the error, or a row has gone out of sight, which undoes everything. */
  lemma WritingMeans(b: Book, w: Writer, order: seq<Edge>)
    requires w.publishable && ListsDue(order, b, w)
    ensures WriteTx(b, w, order).1.None? ==> WriteTx(b, w, order).0 == b && LostSight(w, order)
    ensures WriteTx(b, w, order).1.Some? ==> Reported(WriteTx(b, w, order).0, WriteTx(b, w, order).1.value, b, w, order)
  {
    hide WriteTx, Leading, WrittenSoFar, RefusedAt, WithoutUncited, ListsDue, PendingSeen, Taken, ClaimHidden, Due, Lists, Reported, AfterLoop, Logged, Ids;
    var n := Leading(order, 0, w);
    WritingEnds(b, w, order);
    LeadingMeans(w, order);
    if WriteTx(b, w, order).1.Some? {
      KernelWritten(b, w, order, n);
      WrittenIs(b, w, order, n);
      ReportIs(WriteTx(b, w, order).0, WriteTx(b, w, order).1.value, b, w, order, n);
    }
  }

  lemma ReportIs(after: Book, o: WriteOutcome, b: Book, w: Writer, order: seq<Edge>, n: nat)
    requires n == |o.written| && WrittenSoFar(after, b, w, order, n) && forall k :: 0 <= k < n ==> o.written[k] == w.newId(order[k])
    requires o.deferred == 0 && o.discarded == |set e | e in b.rows && e !in after.rows|
    requires n < |order| ==> RefusedAt(after, b, w, order, n, o.failure)
    requires n == |order| ==> (o.failure.None? <==> |PendingSeen(after.rows, w.seen(n + 3))| == 0)
    ensures Reported(after, o, b, w, order)
  {
    hide WrittenSoFar, RefusedAt, PendingSeen, Due;
    NothingDueIff();
  }

  lemma WrittenIs(b: Book, w: Writer, order: seq<Edge>, n: nat)
    requires ListsDue(order, b, w) && n == Leading(order, 0, w)
    requires n < |order| ==> !ClaimHidden(order[n], w.seen(n + 3)) && !Taken(order[n], w)
    ensures var kept := WithoutUncited(b.rows, w.cited, w.seen(0));
      var after := Book(AfterLoop(kept, order, n, w), b.kernel + Logged(order, n, w.cited, w.newId));
      && WrittenSoFar(after, b, w, order, n)
      && b.rows.Keys - kept.Keys == (set e | e in b.rows && e !in after.rows)
      && (n < |order| && ErrorFor(order[n], w).Some? ==>
            RefusedAt(after, b, w, order, n, Some(EdgeRefused(order[n], ErrorFor(order[n], w).value))))
  {
    hide Leading, AfterLoop, Logged, Dropped, ListsDue, ClaimHidden;
    LeadingMeans(w, order);
    KernelWritten(b, w, order, n);
    RowsWritten(b, w, order, n);
  }

  lemma LeadingMeans(w: Writer, order: seq<Edge>)
    ensures var n := Leading(order, 0, w);
      && n <= |order|
      && (forall k :: 0 <= k < n ==> Taken(order[k], w) && !ClaimHidden(order[k], w.seen(k + 3)))
      && (n < |order| ==> !Taken(order[n], w) || ClaimHidden(order[n], w.seen(n + 3)))
  {
  }

  /** How the transaction ends, by where the loop stopped. */
  lemma WritingEnds(b: Book, w: Writer, order: seq<Edge>)
    requires w.publishable && ListsDue(order, b, w)
    ensures var (after, outcome) := WriteTx(b, w, order);
      var n, kept := Leading(order, 0, w), WithoutUncited(b.rows, w.cited, w.seen(0));
      && (outcome.None? <==> n < |order| && (ClaimHidden(order[n], w.seen(n + 3)) || Taken(order[n], w)))
      && (outcome.None? ==> after == b)
      && (outcome.Some? ==>
            && after == Book(AfterLoop(kept, order, n, w), b.kernel + Logged(order, n, w.cited, w.newId))
            && outcome.value.written == Ids(order, n, w.newId)
            && outcome.value.deferred == 0 && outcome.value.discarded == |b.rows.Keys - kept.Keys|
            && (n == |order| ==>
                  outcome.value.failure == var left := |PendingSeen(after.rows, w.seen(n + 3))|; if left > 0 then Some(StillPending(left)) else None)
            && (n < |order| ==> outcome.value.failure == Some(EdgeRefused(order[n], ErrorFor(order[n], w).value)) && ErrorFor(order[n], w).Some?))
  {
    hide AfterLoop, Leading, WithoutUncited, PendingSeen, IsShape;
  }

  lemma RowsWritten(b: Book, w: Writer, order: seq<Edge>, n: nat)
    requires ListsDue(order, b, w) && n <= |order| && (n < |order| ==> ErrorFor(order[n], w).Some?)
    ensures var kept := WithoutUncited(b.rows, w.cited, w.seen(0));
      var rows := AfterLoop(kept, order, n, w);
      && b.rows.Keys - kept.Keys == (set e | e in b.rows && e !in rows)
      && (forall e :: e in rows <==> e in b.rows && !Dropped(b.rows[e], e, w.cited, w.seen(0)))
      && (forall e :: e in rows && e in order[..n] ==> rows[e] == b.rows[e].(edgeId := Some(w.newId(e))))
      && (forall e :: e in rows && e !in order[..n] && (n < |order| ==> e != order[n]) ==> rows[e] == b.rows[e])
      && (n < |order| ==>
            && order[n] in rows && order[n] in b.rows
            && rows[order[n]] == b.rows[order[n]].(attempts := b.rows[order[n]].attempts + 1, lastError := ErrorFor(order[n], w)))
  {
    hide ErrorFor, Due;
    var kept := WithoutUncited(b.rows, w.cited, w.seen(0));
    if n < |order| {
      assert order[n] in order && order[n] !in order[..n];
    }
    assert forall e :: e in kept <==> e in b.rows && !Dropped(b.rows[e], e, w.cited, w.seen(0));
  }

  lemma KernelWritten(b: Book, w: Writer, order: seq<Edge>, n: nat)
    requires n <= |order|
    ensures var kernel := b.kernel + Logged(order, n, w.cited, w.newId);
      && |kernel| == |b.kernel| + n && b.kernel <= kernel
      && (forall k :: 0 <= k < n ==>
            var made := kernel[|b.kernel| + k];
            made.edge == order[k] && made.id == w.newId(order[k])
            && (made.cited <==> !(order[k].kind == ClaimTarget && order[k].target !in w.cited)))
      && |Ids(order, n, w.newId)| == n && forall k :: 0 <= k < n ==> Ids(order, n, w.newId)[k] == w.newId(order[k])
  {
  }

  lemma NothingDueIff()
    ensures forall rows, seen :: |PendingSeen(rows, seen)| > 0 <==> exists e :: e in rows && Due(rows[e], e, seen)
  {
    forall rows, seen ensures |PendingSeen(rows, seen)| > 0 <==> exists e :: e in rows && Due(rows[e], e, seen) {
      if e :| e in rows && Due(rows[e], e, seen) {
        assert e in PendingSeen(rows, seen);
      } else {
        assert PendingSeen(rows, seen) == {};
      }
    }
  }
}
