/** The PROV outbox of one synthesis: rows planned by an attempt, replaced by
    the next one, deferred while the synthesis is private, and written as
    kernel edges. Row security hides a row whose claim the session cannot
    read, so each statement works on the rows visible when it runs
    (crates/episcience-db/src/repos/synthesis_provo_edges.rs,
    crates/episcience-db/src/synthesis/publish.rs, migrations/5036). */
module Outbox {
  import opened Base

  // ── Rows ────────────────────────────────────────────────────────────────

  datatype Predicate = WasDerivedFrom | Refines | ComposedOf | AttributedTo

  datatype TargetKind = ClaimTarget | SynthesisTarget | AgentTarget | WorkflowTarget

  /** The primary key of a row within its synthesis. */
  datatype Edge = Edge(pred: Predicate, kind: TargetKind, target: Uuid)

  datatype EdgeError = NotAShape | ByKernel(message: string)

  /** `edgeId` stands for `written_at` and `epigraph_edge_id`, set together. */
  datatype OutRow = OutRow(edgeId: Option<Uuid>, deferred: Option<string>, attempts: nat, lastError: Option<EdgeError>)

  /** A kernel edge, and whether its claim was cited when it was written. */
  datatype KernelEdge = KernelEdge(edge: Edge, id: Uuid, cited: bool)

  datatype Book = Book(rows: map<Edge, OutRow>, kernel: seq<KernelEdge>)

  const PLANNED := OutRow(None, None, 0, None)

  predicate Sees(seen: set<Uuid>, e: Edge) {
    e.kind.ClaimTarget? ==> e.target in seen
  }

  predicate Pending(row: OutRow) {
    row.edgeId.None? && row.deferred.None?
  }

  predicate IsShape(e: Edge) {
    match e.pred
    case WasDerivedFrom => e.kind.ClaimTarget?
    case Refines => e.kind.SynthesisTarget? || e.kind.WorkflowTarget?
    case ComposedOf => e.kind.SynthesisTarget?
    case AttributedTo => e.kind.AgentTarget?
  }

  /** No cluster cites the claim the edge names. */
  predicate Uncited(e: Edge, cited: set<Uuid>) {
    e.kind.ClaimTarget? && e.target !in cited
  }

  // ── What the statements make of the rows ────────────────────────────────

  function Planned(rows: map<Edge, OutRow>, edges: seq<Edge>): map<Edge, OutRow> {
    map e | e in rows.Keys + (set x | x in edges) :: if e in rows then rows[e] else PLANNED
  }

  /** The rows a DELETE of unwritten rows leaves: written or hidden ones. */
  function WithoutUnwritten(rows: map<Edge, OutRow>, seen: set<Uuid>): map<Edge, OutRow> {
    map e | e in rows && (rows[e].edgeId.Some? || !Sees(seen, e)) :: rows[e]
  }

  function WithoutUncited(rows: map<Edge, OutRow>, cited: set<Uuid>, seen: set<Uuid>): map<Edge, OutRow> {
    map e | e in rows && !(rows[e].edgeId.None? && Uncited(e, cited) && Sees(seen, e)) :: rows[e]
  }

  function PendingSeen(rows: map<Edge, OutRow>, seen: set<Uuid>): set<Edge> {
    set e | e in rows && Pending(rows[e]) && Sees(seen, e)
  }

  function Deferred(rows: map<Edge, OutRow>, reason: string, seen: set<Uuid>): map<Edge, OutRow> {
    map e | e in rows ::
      if Pending(rows[e]) && Sees(seen, e) then rows[e].(deferred := Some(reason)) else rows[e]
  }

  function Released(rows: map<Edge, OutRow>, seen: set<Uuid>): map<Edge, OutRow> {
    map e | e in rows ::
      if rows[e].deferred == Some("private") && Sees(seen, e) then rows[e].(deferred := None) else rows[e]
  }

  /** `edges[..n]` written under the ids the kernel gave them. */
  function Written(rows: map<Edge, OutRow>, order: seq<Edge>, n: nat, newId: Edge -> Uuid): map<Edge, OutRow>
    requires n <= |order|
  {
    map e | e in rows :: if e in order[..n] then rows[e].(edgeId := Some(newId(e))) else rows[e]
  }

  function Logged(order: seq<Edge>, n: nat, cited: set<Uuid>, newId: Edge -> Uuid): seq<KernelEdge>
    requires n <= |order|
  {
    seq(n, i requires 0 <= i < n => KernelEdge(order[i], newId(order[i]), !Uncited(order[i], cited)))
  }

  function Ids(order: seq<Edge>, n: nat, newId: Edge -> Uuid): seq<Uuid>
    requires n <= |order|
  {
    seq(n, i requires 0 <= i < n => newId(order[i]))
  }

  // ── Transactions ────────────────────────────────────────────────────────

  function ClaimEdges(cited: seq<Uuid>): seq<Edge> {
    seq(|cited|, i requires 0 <= i < |cited| => Edge(WasDerivedFrom, ClaimTarget, cited[i]))
  }

  function PrereqEdges(prereqs: seq<Uuid>): seq<Edge> {
    seq(|prereqs|, i requires 0 <= i < |prereqs| => Edge(ComposedOf, SynthesisTarget, prereqs[i]))
  }

  function OptionalEdge(pred: Predicate, kind: TargetKind, id: Option<Uuid>): seq<Edge> {
    if id.Some? then [Edge(pred, kind, id.value)] else []
  }

  /** The edge set of a synthesis, as stage 6 plans it. */
  function PlanOf(cited: seq<Uuid>, parent: Option<Uuid>, prereqs: seq<Uuid>, owner: Uuid, workflow: Option<Uuid>): seq<Edge> {
    ClaimEdges(cited) + OptionalEdge(Refines, SynthesisTarget, parent) + PrereqEdges(prereqs)
    + [Edge(AttributedTo, AgentTarget, owner)] + OptionalEdge(Refines, WorkflowTarget, workflow)
  }

  /** Statement 0 deletes, statement i + 1 inserts the i-th edge; an insert
      naming a claim the session cannot read is refused and rolls back. */
  function PlanTx(b: Book, edges: seq<Edge>, seen: nat -> set<Uuid>): Book {
    if forall i :: 0 <= i < |edges| ==> Sees(seen(i + 1), edges[i])
    then b.(rows := Planned(WithoutUnwritten(b.rows, seen(0)), edges))
    else b
  }

  datatype Failure = EdgeRefused(edge: Edge, error: EdgeError) | StillPending(count: nat)

  datatype WriteOutcome = WriteOutcome(written: seq<Uuid>, deferred: nat, discarded: nat, failure: Option<Failure>)

  /** What decides a write transaction: the claims the clusters cite, whether
      the synthesis is publishable, what statement i can see (0 discards, 1
      asks whether it is publishable, 2 lists or defers, k + 3 updates the k-th
      listed row), and the kernel's answers. */
  datatype Writer = Writer(cited: set<Uuid>, publishable: bool, seen: nat -> set<Uuid>,
                           refusal: Edge -> Option<string>, newId: Edge -> Uuid)

  function ErrorFor(e: Edge, w: Writer): Option<EdgeError> {
    if !IsShape(e) then Some(NotAShape)
    else match w.refusal(e)
         case Some(message) => Some(ByKernel(message))
         case None => None
  }

  /** How many listed edges are written before the first that is refused or
      whose row has gone out of sight. */
  function Leading(order: seq<Edge>, i: nat, w: Writer): (n: nat)
    requires i <= |order|
    ensures i <= n <= |order|
    ensures forall k :: i <= k < n ==> ErrorFor(order[k], w).None? && Sees(w.seen(k + 3), order[k])
    ensures n < |order| ==> ErrorFor(order[n], w).Some? || !Sees(w.seen(n + 3), order[n])
    decreases |order| - i
  {
    if i < |order| && ErrorFor(order[i], w).None? && Sees(w.seen(i + 3), order[i]) then Leading(order, i + 1, w) else i
  }

  ghost predicate Lists(order: seq<Edge>, edges: set<Edge>) {
    Distinct(order) && Elements(order) == edges
  }

  /** The rows after the loop wrote `n` edges and, if it stopped short of the
      end on a refusal, recorded it on the next one. */
  function AfterLoop(rows: map<Edge, OutRow>, order: seq<Edge>, n: nat, w: Writer): map<Edge, OutRow>
    requires n <= |order|
  {
    var written := Written(rows, order, n, w.newId);
    if n < |order| && order[n] in written && ErrorFor(order[n], w).Some? then
      var row := written[order[n]];
      written[order[n] := row.(attempts := row.attempts + 1, lastError := ErrorFor(order[n], w))]
    else written
  }

  /** A write transaction: the new book and what it reports, or the old book
      and nothing when the database refused a statement. */
  function WriteTx(b: Book, w: Writer, order: seq<Edge>): (Book, Option<WriteOutcome>) {
    var kept := WithoutUncited(b.rows, w.cited, w.seen(0));
    var discarded := |b.rows.Keys - kept.Keys|;
    if !w.publishable then
      (Book(Deferred(kept, "private", w.seen(2)), b.kernel),
       Some(WriteOutcome([], |PendingSeen(kept, w.seen(2))|, discarded, None)))
    else
      var n := Leading(order, 0, w);
      var rows := AfterLoop(kept, order, n, w);
      var kernel := b.kernel + Logged(order, n, w.cited, w.newId);
      var ids := Ids(order, n, w.newId);
      if n == |order| then
        var left := |PendingSeen(rows, w.seen(n + 3))|;
        (Book(rows, kernel), Some(WriteOutcome(ids, 0, discarded, if left > 0 then Some(StillPending(left)) else None)))
      else if ErrorFor(order[n], w).Some? && Sees(w.seen(n + 3), order[n]) then
        (Book(rows, kernel), Some(WriteOutcome(ids, 0, discarded, Some(EdgeRefused(order[n], ErrorFor(order[n], w).value)))))
      else (b, None)
  }

  lemma DeferredIs(before: map<Edge, OutRow>, reason: string, seen: set<Uuid>, rows: map<Edge, OutRow>)
    requires rows.Keys == before.Keys
    requires forall e :: e in rows && e !in PendingSeen(before, seen) ==> rows[e] == before[e]
    requires forall e :: e in PendingSeen(before, seen) ==> rows[e] == before[e].(deferred := Some(reason))
    ensures rows == Deferred(before, reason, seen)
  {
    var after := Deferred(before, reason, seen);
    assert after.Keys == before.Keys;
    forall e | e in rows ensures rows[e] == after[e] {
      assert e in PendingSeen(before, seen) <==> Pending(before[e]) && Sees(seen, e);
    }
  }

  lemma NonePendingIff(rows: map<Edge, OutRow>, seen: set<Uuid>)
    ensures |PendingSeen(rows, seen)| == 0 <==> forall e :: e in rows && Sees(seen, e) ==> !Pending(rows[e])
  {
    if forall e :: e in rows && Sees(seen, e) ==> !Pending(rows[e]) {
      assert PendingSeen(rows, seen) == {};
    } else {
      var e :| e in rows && Sees(seen, e) && Pending(rows[e]);
      assert e in PendingSeen(rows, seen);
    }
  }

  lemma NothingPlanned(rows: map<Edge, OutRow>)
    ensures Planned(rows, []) == rows
  {
  }

  lemma PlannedStep(rows: map<Edge, OutRow>, edges: seq<Edge>, i: nat)
    requires i < |edges|
    ensures var so := Planned(rows, edges[..i]);
      Planned(rows, edges[..i + 1]) == if edges[i] in so then so else so[edges[i] := PLANNED]
  {
    assert edges[..i + 1] == edges[..i] + [edges[i]];
  }

  lemma WrittenStep(rows: map<Edge, OutRow>, order: seq<Edge>, i: nat, newId: Edge -> Uuid)
    requires i < |order| && order[i] in rows
    ensures order[i] in Written(rows, order, i, newId)
    ensures var so := Written(rows, order, i, newId);
            Written(rows, order, i + 1, newId) == so[order[i] := so[order[i]].(edgeId := Some(newId(order[i])))]
  {
    assert order[..i + 1] == order[..i] + [order[i]];
  }

  lemma LoggedStep(order: seq<Edge>, i: nat, cited: set<Uuid>, newId: Edge -> Uuid)
    requires i < |order|
    ensures Logged(order, i + 1, cited, newId)
         == Logged(order, i, cited, newId) + [KernelEdge(order[i], newId(order[i]), !Uncited(order[i], cited))]
    ensures Ids(order, i + 1, newId) == Ids(order, i, newId) + [newId(order[i])]
  {
  }

  lemma LeadingStep(order: seq<Edge>, i: nat, w: Writer)
    requires i < |order|
    ensures Leading(order, i, w)
         == if ErrorFor(order[i], w).None? && Sees(w.seen(i + 3), order[i]) then Leading(order, i + 1, w) else i
  {
  }

  lemma AllLed(order: seq<Edge>, w: Writer)
    ensures Leading(order, |order|, w) == |order|
  {
  }

  lemma NothingWritten(rows: map<Edge, OutRow>, order: seq<Edge>, w: Writer)
    ensures Written(rows, order, 0, w.newId) == rows && Logged(order, 0, w.cited, w.newId) == [] && Ids(order, 0, w.newId) == []
  {
  }

  lemma ListedAreKept(rows: map<Edge, OutRow>, seen: set<Uuid>, order: seq<Edge>)
    requires Lists(order, PendingSeen(rows, seen))
    ensures forall e :: e in order ==> e in rows && Pending(rows[e]) && Sees(seen, e)
  {
    forall e | e in order ensures e in PendingSeen(rows, seen) {
      assert e in Elements(order);
    }
  }

  /** The claims of a plan come first, so the i-th insert names the i-th. */
  lemma ClaimsComeFirst(cited: seq<Uuid>, parent: Option<Uuid>, prereqs: seq<Uuid>, owner: Uuid, workflow: Option<Uuid>, seen: nat -> set<Uuid>)
    ensures var plan := PlanOf(cited, parent, prereqs, owner, workflow);
      (forall i :: 0 <= i < |plan| ==> Sees(seen(i + 1), plan[i])) <==> forall i :: 0 <= i < |cited| ==> cited[i] in seen(i + 1)
  {
    var plan := PlanOf(cited, parent, prereqs, owner, workflow);
    forall i | 0 <= i < |cited| ensures plan[i] == Edge(WasDerivedFrom, ClaimTarget, cited[i]) {
    }
    forall i | |cited| <= i < |plan| ensures !plan[i].kind.ClaimTarget? {
    }
    if forall i :: 0 <= i < |plan| ==> Sees(seen(i + 1), plan[i]) {
      forall i | 0 <= i < |cited| ensures cited[i] in seen(i + 1) {
        assert Sees(seen(i + 1), plan[i]);
      }
    }
  }

  // ── The repository ──────────────────────────────────────────────────────

  class ProvoEdges {
    var rows: map<Edge, OutRow>
    var kernel: seq<KernelEdge>

    constructor ()
      ensures Contents() == Book(map[], [])
    {
      rows, kernel := map[], [];
    }

    ghost function Contents(): Book
      reads this
    {
      Book(rows, kernel)
    }

    /** ON CONFLICT DO NOTHING: a planned edge that is there already stays. */
    method Plan(edges: seq<Edge>, seen: nat -> set<Uuid>) returns (ok: bool)
      modifies this`rows
      ensures ok <==> forall i :: 0 <= i < |edges| ==> Sees(seen(i + 1), edges[i])
      ensures ok ==> rows == Planned(old(rows), edges)
    {
      hide Planned, Sees;
      ok := true;
      NothingPlanned(rows);
      for i := 0 to |edges|
        invariant ok
        invariant forall k :: 0 <= k < i ==> Sees(seen(k + 1), edges[k])
        invariant rows == Planned(old(rows), edges[..i])
      {
        if !Sees(seen(i + 1), edges[i]) {
          return false;
        }
        PlannedStep(old(rows), edges, i);
        if edges[i] !in rows {
          rows := rows[edges[i] := PLANNED];
        }
      }
      assert edges[..|edges|] == edges;
    }

    method ReplaceUnwritten(edges: seq<Edge>, seen: nat -> set<Uuid>) returns (ok: bool, discarded: nat)
      modifies this`rows
      ensures ok <==> forall i :: 0 <= i < |edges| ==> Sees(seen(i + 1), edges[i])
      ensures ok ==> rows == Planned(WithoutUnwritten(old(rows), seen(0)), edges)
      ensures discarded == |set e | e in old(rows) && old(rows)[e].edgeId.None? && Sees(seen(0), e)|
    {
      var gone := set e | e in rows && rows[e].edgeId.None? && Sees(seen(0), e);
      discarded := |gone|;
      rows := rows - gone;
      assert rows == WithoutUnwritten(old(rows), seen(0));
      ok := Plan(edges, seen);
    }

    /** Stage 6a in its own transaction. */
    method PlanStage(cited: seq<Uuid>, parent: Option<Uuid>, prereqs: seq<Uuid>, owner: Uuid, workflow: Option<Uuid>,
                     seen: nat -> set<Uuid>) returns (ok: bool)
      modifies this`rows
      ensures Contents() == PlanTx(old(Contents()), PlanOf(cited, parent, prereqs, owner, workflow), seen)
      ensures ok <==> forall i :: 0 <= i < |cited| ==> cited[i] in seen(i + 1)
    {
      var edges := [];
      for i := 0 to |cited|
        invariant edges == ClaimEdges(cited[..i])
      {
        edges := edges + [Edge(WasDerivedFrom, ClaimTarget, cited[i])];
      }
      assert cited[..|cited|] == cited;
      if parent.Some? {
        edges := edges + [Edge(Refines, SynthesisTarget, parent.value)];
      }
      ghost var head := edges;
      for i := 0 to |prereqs|
        invariant edges == head + PrereqEdges(prereqs[..i])
      {
        edges := edges + [Edge(ComposedOf, SynthesisTarget, prereqs[i])];
      }
      assert prereqs[..|prereqs|] == prereqs;
      edges := edges + [Edge(AttributedTo, AgentTarget, owner)];
      if workflow.Some? {
        edges := edges + [Edge(Refines, WorkflowTarget, workflow.value)];
      }
      assert edges == PlanOf(cited, parent, prereqs, owner, workflow);
      ClaimsComeFirst(cited, parent, prereqs, owner, workflow, seen);
      var before := rows;
      var discarded;
      ok, discarded := ReplaceUnwritten(edges, seen);
      if !ok {
        rows := before;
      }
    }

    method DiscardUncitedUnwritten(cited: set<Uuid>, seen: set<Uuid>) returns (discarded: nat)
      modifies this`rows
      ensures rows == WithoutUncited(old(rows), cited, seen)
      ensures discarded == |old(rows).Keys - rows.Keys|
    {
      var gone := set e | e in rows && rows[e].edgeId.None? && Uncited(e, cited) && Sees(seen, e);
      discarded := |gone|;
      assert gone == rows.Keys - (rows - gone).Keys;
      rows := rows - gone;
    }

    method ListPending(seen: set<Uuid>) returns (edges: seq<Edge>)
      ensures Lists(edges, PendingSeen(rows, seen))
    {
      edges := [];
      var left := PendingSeen(rows, seen);
      while left != {}
        invariant Distinct(edges) && Elements(edges) + left == PendingSeen(rows, seen)
        invariant Elements(edges) !! left
        decreases left
      {
        var e :| e in left;
        assert Elements(edges + [e]) == Elements(edges) + {e};
        assert forall i :: 0 <= i < |edges| ==> edges[i] in Elements(edges);
        edges, left := edges + [e], left - {e};
      }
    }

    method MarkWritten(e: Edge, id: Uuid, seen: set<Uuid>) returns (ok: bool)
      modifies this`rows
      ensures ok <==> e in old(rows) && Sees(seen, e)
      ensures rows == if ok then old(rows)[e := old(rows)[e].(edgeId := Some(id))] else old(rows)
    {
      ok := e in rows && Sees(seen, e);
      if ok {
        rows := rows[e := rows[e].(edgeId := Some(id))];
      }
    }

    method RecordFailure(e: Edge, error: EdgeError, seen: set<Uuid>) returns (ok: bool)
      modifies this`rows
      ensures ok <==> e in old(rows) && Sees(seen, e)
      ensures rows == if ok then old(rows)[e := old(rows)[e].(attempts := old(rows)[e].attempts + 1, lastError := Some(error))] else old(rows)
    {
      ok := e in rows && Sees(seen, e);
      if ok {
        rows := rows[e := rows[e].(attempts := rows[e].attempts + 1, lastError := Some(error))];
      }
    }

    /** Nothing the session sees stays pending, and nothing else changes; a
        second call finds nothing. */
    method DeferUnwritten(reason: string, seen: set<Uuid>) returns (deferred: nat)
      modifies this`rows
      ensures PendingSeen(rows, seen) == {}
      ensures rows.Keys == old(rows).Keys
      ensures forall e :: e in rows && e !in PendingSeen(old(rows), seen) ==> rows[e] == old(rows)[e]
      ensures forall e :: e in PendingSeen(old(rows), seen) ==> rows[e] == old(rows)[e].(deferred := Some(reason))
      ensures deferred == |PendingSeen(old(rows), seen)|
    {
      deferred := |PendingSeen(rows, seen)|;
      rows := map e | e in rows ::
        if rows[e].edgeId.None? && rows[e].deferred.None? && Sees(seen, e) then rows[e].(deferred := Some(reason)) else rows[e];
    }

    /** The outbox half of widening a synthesis to public: no visible row stays
        deferred as private, and only such rows change. */
    method ReleasePrivate(seen: set<Uuid>)
      modifies this`rows
      ensures rows.Keys == old(rows).Keys
      ensures forall e :: e in rows && Sees(seen, e) ==> rows[e].deferred != Some("private")
      ensures forall e :: e in rows && !(Sees(seen, e) && old(rows)[e].deferred == Some("private")) ==> rows[e] == old(rows)[e]
      ensures forall e :: e in rows ==> rows[e] == old(rows)[e].(deferred := rows[e].deferred)
      ensures forall e :: e in rows ==> rows[e].deferred in {old(rows)[e].deferred, None}
    {
      rows := map e | e in rows ::
        if rows[e].deferred == Some("private") && Sees(seen, e) then rows[e].(deferred := None) else rows[e];
    }

    /** As many as there are visible pending rows, so as many as a listing
        has, and zero exactly when everything visible is written or deferred. */
    method CountPending(seen: set<Uuid>) returns (count: nat)
      ensures count == |PendingSeen(rows, seen)|
      ensures count == 0 <==> forall e :: e in rows && Sees(seen, e) ==> !Pending(rows[e])
      ensures forall order :: Lists(order, PendingSeen(rows, seen)) ==> |order| == count
    {
      count := 0;
      var left := rows.Keys;
      while left != {}
        invariant left <= rows.Keys
        invariant count == |PendingSeen(rows, seen) - left|
        decreases left
      {
        var e :| e in left;
        if rows[e].edgeId.None? && rows[e].deferred.None? && Sees(seen, e) {
          assert PendingSeen(rows, seen) - (left - {e}) == (PendingSeen(rows, seen) - left) + {e};
          count := count + 1;
        } else {
          assert PendingSeen(rows, seen) - (left - {e}) == PendingSeen(rows, seen) - left;
        }
        left := left - {e};
      }
      assert PendingSeen(rows, seen) - left == PendingSeen(rows, seen);
      NonePendingIff(rows, seen);
      forall order | Lists(order, PendingSeen(rows, seen)) ensures |order| == count {
        DistinctCardinality(order);
      }
    }

    /** The write loop: rows are written in the listed order until one is
        refused (recorded on it) or a statement finds its row gone from
        sight (`!ok`: the database error that rolls everything back). */
    method WriteListed(pending: seq<Edge>, w: Writer) returns (n: nat, ids: seq<Uuid>, error: Option<EdgeError>, ok: bool)
      requires forall e :: e in pending ==> e in rows
      modifies this
      ensures n == Leading(pending, 0, w) && ids == Ids(pending, n, w.newId)
      ensures error == if n < |pending| then ErrorFor(pending[n], w) else None
      ensures ok <==> (n < |pending| ==> error.Some? && Sees(w.seen(n + 3), pending[n]))
      ensures ok ==> kernel == old(kernel) + Logged(pending, n, w.cited, w.newId)
      ensures ok ==> rows == AfterLoop(old(rows), pending, n, w)
    {
      hide Written, Logged, Ids, ErrorFor, Leading, Sees, Uncited;
      ids, n := [], 0;
      NothingWritten(rows, pending, w);
      while n < |pending|
        invariant 0 <= n <= |pending|
        invariant Leading(pending, 0, w) == Leading(pending, n, w)
        invariant rows == Written(old(rows), pending, n, w.newId)
        invariant kernel == old(kernel) + Logged(pending, n, w.cited, w.newId)
        invariant ids == Ids(pending, n, w.newId)
      {
        var e := pending[n];
        error := ErrorFor(e, w);
        LeadingStep(pending, n, w);
        WrittenStep(old(rows), pending, n, w.newId);
        if error.Some? {
          ok := RecordFailure(e, error.value, w.seen(n + 3));
          return;
        }
        LoggedStep(pending, n, w.cited, w.newId);
        kernel := kernel + [KernelEdge(e, w.newId(e), !Uncited(e, w.cited))];
        ok := MarkWritten(e, w.newId(e), w.seen(n + 3));
        if !ok {
          return;
        }
        ids := ids + [w.newId(e)];
        n := n + 1;
      }
      AllLed(pending, w);
      ok, error := true, None;
    }

    /** List what is pending and write it, or restore `rowsBefore` when a
        statement fails. */
    method WriteOrRestore(w: Writer, rowsBefore: map<Edge, OutRow>, discarded: nat)
      returns (outcome: Option<WriteOutcome>, ghost order: seq<Edge>)
      requires w.publishable && rows == WithoutUncited(rowsBefore, w.cited, w.seen(0))
      requires discarded == |rowsBefore.Keys - rows.Keys|
      modifies this
      ensures Lists(order, PendingSeen(old(rows), w.seen(2)))
      ensures Contents() == WriteTx(Book(rowsBefore, old(kernel)), w, order).0
      ensures outcome == WriteTx(Book(rowsBefore, old(kernel)), w, order).1
    {
      hide Written, Logged, Ids, AfterLoop, WithoutUncited, PendingSeen, ErrorFor, Leading, Lists, Sees, Pending, Uncited;
      var kernelBefore := kernel;
      var pending := ListPending(w.seen(2));
      order := pending;
      ListedAreKept(rows, w.seen(2), pending);
      var n, ids, error, ok := WriteListed(pending, w);
      if !ok {
        rows, kernel := rowsBefore, kernelBefore;
        outcome := None;
      } else if n < |pending| {
        outcome := Some(WriteOutcome(ids, 0, discarded, Some(EdgeRefused(pending[n], error.value))));
      } else {
        var left := CountPending(w.seen(n + 3));
        outcome := Some(WriteOutcome(ids, 0, discarded, if left > 0 then Some(StillPending(left)) else None));
      }
    }

    /** Stage 6d in its transaction: discard what is no longer cited, defer
        everything while the synthesis is not publishable, else write the
        pending rows. */
    method WriteEdges(w: Writer) returns (outcome: Option<WriteOutcome>, ghost order: seq<Edge>)
      modifies this
      ensures w.publishable ==> Lists(order, PendingSeen(WithoutUncited(old(rows), w.cited, w.seen(0)), w.seen(2)))
      ensures Contents() == WriteTx(old(Contents()), w, order).0
      ensures outcome == WriteTx(old(Contents()), w, order).1
    {
      hide AfterLoop, WithoutUncited, Deferred, PendingSeen, Lists, Leading;
      var rowsBefore := rows;
      var discarded := DiscardUncitedUnwritten(w.cited, w.seen(0));
      if w.publishable {
        outcome, order := WriteOrRestore(w, rowsBefore, discarded);
      } else {
        ghost var kept := rows;
        var deferred := DeferUnwritten("private", w.seen(2));
        DeferredIs(kept, "private", w.seen(2), rows);
        outcome, order := Some(WriteOutcome([], deferred, discarded, None)), [];
      }
    }
  }
}
